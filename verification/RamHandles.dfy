/** The operations on handles, seen from the whole handler: the other files, the tree, the lock
    table and the space accounting are as before, and the file makes a step of RamFileSpec. */
module RamHandles {
  import opened Machine
  import opened Lists
  import opened RamTypes
  import opened RamFileSpec
  import opened RamTree
  import opened RamSpace
  import opened RamDelete
  import RamCreate
  import RamFile
  import RamLocks
  import RamRename

  /** Between two packets no handle points behind the end of its file. */
  lemma HandlesInFile(gd: GlobalData, lock: RamLock)
    requires HandlerOk(gd) && lock in gd.locks
    ensures lock.key in gd.nodes && lock in StateOf(gd.locks, lock.key).cursors
    ensures StateOf(gd.locks, lock.key).Ok()
  {
    forall l | l in gd.locks && l.key == lock.key
      ensures 0 <= l.cpos <= |lock.key.content|
    {
      assert RamFile.CursorOk(l, l.key) && DataOk(l.key);
    }
  }

  /** What rh_Seek takes for the largest position of the other handles is just that. */
  lemma FurthestIs(locks: seq<RamLock>, n: ObjNode, lock: RamLock, dest: int)
    ensures IsFurthest(StateOf(locks, n).cursors, lock, dest, RamFile.Furthest(locks, n, lock, dest))
  {
    RamFile.FurthestBound(locks, |locks|, n, lock, dest);
    var furthest := RamFile.Furthest(locks, n, lock, dest);
    if furthest != dest {
      var j :| 0 <= j < |locks| && locks[j].key == n && locks[j] != lock && locks[j].cpos == furthest;
      assert locks[j] in StateOf(locks, n).cursors;
    }
  }

  /** The nodes whose data an operation on `n` changes: `n` and the links to it. */
  ghost function LeadingTo(nodes: set<ObjNode>, n: ObjNode): set<ObjNode>
    reads nodes`kind, nodes`target
  {
    set m | m in nodes && Resolve(m) == n
  }

  /** rh_Write seen from the tree, which does not look into the file. */
  method WriteInTree(gd: GlobalData, lock: RamLock, buf: seq<byte>, bsize: int)
    returns (count: int, ghost bytes: seq<byte>)
    requires TreeOk(gd.nodes, gd.root) && RamFile.FileOk(lock.key) && lock.key.chain != []
    requires lock in gd.locks && lock.key in gd.nodes && lock.key.kind.File?
    requires RamFile.CursorsOk(gd.locks, lock.key) && bsize <= |buf|
    modifies lock`block, lock`offset, lock`cpos, lock`modified, lock`index
    modifies lock.key`content, lock.key`chain, lock.key`size, gd`spaceUsed
    modifies lock.key.chain, set b | b in lock.key.chain :: b.bytes
    ensures TreeOk(gd.nodes, gd.root) && RamFile.FileOk(lock.key) && RamFile.CursorsOk(gd.locks, lock.key)
    ensures gd.spaceUsed - old(gd.spaceUsed) == |lock.key.chain| - |old(lock.key.chain)|
    ensures old(lock.key.chain) <= lock.key.chain
    ensures forall i :: |old(lock.key.chain)| <= i < |lock.key.chain| ==>
              fresh(lock.key.chain[i]) && fresh(lock.key.chain[i].bytes)
    ensures lock.key.content == Splice(old(lock.key.content), old(lock.cpos), bytes)
    ensures bytes <= buf && lock.modified
    ensures count != -1 ==> count == |bytes| == (if bsize > 0 then bsize else 0) && lock.cpos == old(lock.cpos) + count
    ensures count == -1 ==> |bytes| <= bsize && lock.cpos == old(lock.cpos) && !gd.reliable
  {
    hide RamFile.FileOk, RamFile.CursorsOk, Splice;
    assert NodeOk(gd.nodes, lock.key);
    count, bytes := RamFile.Write(gd, lock, lock.key, buf, bsize);
    forall m {:trigger NodeOk(gd.nodes, m)} | m in gd.nodes && m != lock.key
      ensures NodeOk(gd.nodes, m) == old(NodeOk(gd.nodes, m))
    {
    }
    assert NodeOk(gd.nodes, lock.key);
  }

  /** The space in use follows the blocks of the file. */
  method WriteInSpace(gd: GlobalData, lock: RamLock, buf: seq<byte>, bsize: int)
    returns (count: int, ghost bytes: seq<byte>)
    requires StructureOk(gd) && RamFile.FileOk(lock.key) && lock.key.chain != []
    requires lock in gd.locks && lock.key in gd.nodes && lock.key.kind.File?
    requires RamFile.CursorsOk(gd.locks, lock.key) && bsize <= |buf|
    modifies lock`block, lock`offset, lock`cpos, lock`modified, lock`index
    modifies lock.key`content, lock.key`chain, lock.key`size, gd`spaceUsed
    modifies lock.key.chain, set b | b in lock.key.chain :: b.bytes
    ensures StructureOk(gd) && RamFile.FileOk(lock.key) && RamFile.CursorsOk(gd.locks, lock.key)
    ensures old(lock.key.chain) <= lock.key.chain
    ensures forall i :: |old(lock.key.chain)| <= i < |lock.key.chain| ==>
              fresh(lock.key.chain[i]) && fresh(lock.key.chain[i].bytes)
    ensures lock.key.content == Splice(old(lock.key.content), old(lock.cpos), bytes)
    ensures bytes <= buf && lock.modified
    ensures count != -1 ==> count == |bytes| == (if bsize > 0 then bsize else 0) && lock.cpos == old(lock.cpos) + count
    ensures count == -1 ==> |bytes| <= bsize && lock.cpos == old(lock.cpos) && !gd.reliable
  {
    hide TreeOk, Splice;
    ghost var n := lock.key;
    ghost var counts: map<ObjNode, nat> := BlockCounts(gd.nodes);
    count, bytes := WriteInTree(gd, lock, buf, bsize);
    SumChange(counts, n, |n.chain|);
    assert BlockCounts(gd.nodes) == counts[n := |n.chain|];
  }

  method WriteInFiles(gd: GlobalData, lock: RamLock, buf: seq<byte>, bsize: int)
    returns (count: int, ghost bytes: seq<byte>)
    requires StructureOk(gd) && FilesOk(gd.nodes) && lock in gd.locks && lock.key in gd.nodes && lock.key.kind.File?
    requires RamFile.CursorsOk(gd.locks, lock.key) && bsize <= |buf|
    modifies lock`block, lock`offset, lock`cpos, lock`modified, lock`index
    modifies lock.key`content, lock.key`chain, lock.key`size, gd`spaceUsed
    modifies lock.key.chain, set b | b in lock.key.chain :: b.bytes
    ensures StructureOk(gd) && FilesOk(gd.nodes) && RamFile.CursorsOk(gd.locks, lock.key)
    ensures lock.key.content == Splice(old(lock.key.content), old(lock.cpos), bytes)
    ensures bytes <= buf && lock.modified
    ensures count != -1 ==> count == |bytes| == (if bsize > 0 then bsize else 0) && lock.cpos == old(lock.cpos) + count
    ensures count == -1 ==> |bytes| <= bsize && lock.cpos == old(lock.cpos) && !gd.reliable
  {
    hide StructureOk, Splice;
    ghost var n := lock.key;
    ghost var chain0, arrays0 := n.chain, set b | b in n.chain :: b.bytes;
    assert DataOk(n);
    count, bytes := WriteInSpace(gd, lock, buf, bsize);
    forall m, k {:trigger ChainsApart(m, k)} | m in gd.nodes && k in gd.nodes
      ensures ChainsApart(m, k)
    {
      assert old(ChainsApart(m, k));
    }
    forall m {:trigger DataOk(m)} | m in gd.nodes
      ensures DataOk(m)
    {
      assert old(DataOk(m) && ChainsApart(n, m));
      if m != n && m.kind.File? {
        forall i | 0 <= i < |m.chain|
          ensures m.chain[i] !in chain0 && m.chain[i].bytes !in arrays0
        {
          assert forall b :: b in chain0 ==> RamFile.Apart(b, m.chain[i]);
        }
        forall i, j {:trigger RamFile.ByteOk(m.chain, m.content, i, j)}
          ensures RamFile.ByteOk(m.chain, m.content, i, j)
        {
          assert old(RamFile.ByteOk(m.chain, m.content, i, j));
        }
      }
    }
  }

  /** A write keeps the state of the whole handler consistent. */
  method WriteKeeps(gd: GlobalData, lock: RamLock, buf: seq<byte>, bsize: int, ghost meaning: map<ObjNode, Attributes>)
    returns (count: int, ghost bytes: seq<byte>)
    requires HandlerOk(gd) && lock in gd.locks && lock.key.kind.File? && bsize <= |buf|
    requires Means(gd.nodes - LeadingTo(gd.nodes, lock.key), meaning)
    modifies lock`block, lock`offset, lock`cpos, lock`modified, lock`index
    modifies lock.key`content, lock.key`chain, lock.key`size, gd`spaceUsed
    modifies lock.key.chain, set b | b in lock.key.chain :: b.bytes
    ensures HandlerOk(gd) && Means(gd.nodes - LeadingTo(gd.nodes, lock.key), meaning)
    ensures lock.key.content == Splice(old(lock.key.content), old(lock.cpos), bytes)
    ensures bytes <= buf && lock.modified
    ensures count != -1 ==> count == |bytes| == (if bsize > 0 then bsize else 0) && lock.cpos == old(lock.cpos) + count
    ensures count == -1 ==> |bytes| <= bsize && lock.cpos == old(lock.cpos) && !gd.reliable
  {
    hide StructureOk, RamLocks.TableOk, Splice;
    count, bytes := WriteInFiles(gd, lock, buf, bsize);
  }

  /** rh_Write between two packets. */
  method Write(gd: GlobalData, lock: RamLock, buf: seq<byte>, bsize: int, ghost meaning: map<ObjNode, Attributes>)
    returns (count: int, ghost bytes: seq<byte>)
    requires HandlerOk(gd) && lock in gd.locks && lock.key.kind.File? && bsize <= |buf|
    requires Means(gd.nodes - LeadingTo(gd.nodes, lock.key), meaning)
    modifies lock`block, lock`offset, lock`cpos, lock`modified, lock`index
    modifies lock.key`content, lock.key`chain, lock.key`size, gd`spaceUsed
    modifies lock.key.chain, set b | b in lock.key.chain :: b.bytes
    ensures HandlerOk(gd) && Means(gd.nodes - LeadingTo(gd.nodes, lock.key), meaning)
    ensures lock.key.content == Splice(old(lock.key.content), old(lock.cpos), bytes)
    ensures bytes <= buf && lock.modified
    ensures count != -1 ==> count == |bytes| == (if bsize > 0 then bsize else 0) && lock.cpos == old(lock.cpos) + count
    ensures count == -1 ==> |bytes| <= bsize && lock.cpos == old(lock.cpos) && !gd.reliable
    ensures Step(old(StateOf(gd.locks, lock.key)),
                 if count == -1 then WriteFailed(lock, bytes) else WriteFile(lock, bytes),
                 StateOf(gd.locks, lock.key))
  {
    hide StructureOk, FilesOk, HandlesIn, RamLocks.TableOk, Means, Splice;
    HandlesInFile(gd, lock);
    ghost var before := StateOf(gd.locks, lock.key);
    count, bytes := WriteKeeps(gd, lock, buf, bsize, meaning);
    assert StateOf(gd.locks, lock.key).cursors == before.cursors[lock := lock.cpos];
  }

  // ---------------------------------------------------------------- rh_Seek

  /** The position a seek asks for; anything for an origin that rh_Seek refuses. */
  ghost function Target(lock: RamLock, dest: int, frompos: int): int
    reads lock`cpos, lock.key`content
  {
    if ValidOrigin(frompos) && lock.cpos >= 0 then SeekTarget(dest, frompos, lock.cpos, |lock.key.content|) else dest
  }

  /** A refused seek changes nothing; any other leaves what Moved says. */
  ghost predicate Sought(dest: int, frompos: int, truncate: bool, pos: int, content: seq<byte>, furthest: int,
                         r: int, pos': int, content': seq<byte>)
  {
    && pos >= 0
    && if SeekRefused(dest, frompos, truncate, pos, |content|) then
         r == -1 && pos' == pos && content' == content
       else
         Moved(SeekTarget(dest, frompos, pos, |content|), truncate, pos, content, furthest, r, pos', content')
  }

  /** rh_Seek seen from the file. */
  method SeekInFile(gd: GlobalData, lock: RamLock, dest: int, frompos: int, truncate: bool) returns (r: int)
    requires RamLocks.LockListOk(gd.lockList, gd.locks) && RamFile.FileOk(lock.key) && lock.key.chain != []
    requires lock in gd.locks && RamFile.CursorsOk(gd.locks, lock.key)
    modifies lock`block, lock`offset, lock`cpos, lock`modified, lock`index, gd`fileErr
    modifies lock.key`content, lock.key`chain, lock.key`size, gd`spaceUsed
    modifies lock.key.chain, set b | b in lock.key.chain :: b.bytes
    ensures RamFile.FileOk(lock.key) && RamFile.CursorsOk(gd.locks, lock.key)
    ensures gd.spaceUsed - old(gd.spaceUsed) == |lock.key.chain| - |old(lock.key.chain)|
    ensures lock.key.chain != []
    ensures forall b :: b in lock.key.chain && b !in old(lock.key.chain) ==> fresh(b) && fresh(b.bytes)
    ensures Sought(dest, frompos, truncate, old(lock.cpos), old(lock.key.content),
                   old(RamFile.Furthest(gd.locks, lock.key, lock,
                                        Target(lock, dest, frompos))), r, lock.cpos, lock.key.content)
    ensures gd.reliable && r == -1 ==> SeekRefused(dest, frompos, truncate, old(lock.cpos), |old(lock.key.content)|)
  {
    assert RamFile.CursorOk(lock, lock.key) && lock.cpos >= 0;
    hide RamLocks.LockListOk, RamFile.CursorsOk, Moved, RamFile.Furthest;
    r := RamFile.Seek(gd, lock, lock.key, dest, frompos, truncate);
  }

  /** rh_Seek seen from the tree, which does not look into the file. */
  method SeekInTree(gd: GlobalData, lock: RamLock, dest: int, frompos: int, truncate: bool) returns (r: int)
    requires TreeOk(gd.nodes, gd.root) && RamLocks.LockListOk(gd.lockList, gd.locks)
    requires lock in gd.locks && lock.key in gd.nodes && lock.key.kind.File?
    requires RamFile.FileOk(lock.key) && lock.key.chain != [] && RamFile.CursorsOk(gd.locks, lock.key)
    modifies lock`block, lock`offset, lock`cpos, lock`modified, lock`index, gd`fileErr
    modifies lock.key`content, lock.key`chain, lock.key`size, gd`spaceUsed
    modifies lock.key.chain, set b | b in lock.key.chain :: b.bytes
    ensures TreeOk(gd.nodes, gd.root) && RamFile.FileOk(lock.key) && RamFile.CursorsOk(gd.locks, lock.key)
    ensures gd.spaceUsed - old(gd.spaceUsed) == |lock.key.chain| - |old(lock.key.chain)|
    ensures lock.key.chain != []
    ensures forall b :: b in lock.key.chain && b !in old(lock.key.chain) ==> fresh(b) && fresh(b.bytes)
    ensures Sought(dest, frompos, truncate, old(lock.cpos), old(lock.key.content),
                   old(RamFile.Furthest(gd.locks, lock.key, lock,
                                        Target(lock, dest, frompos))), r, lock.cpos, lock.key.content)
    ensures gd.reliable && r == -1 ==> SeekRefused(dest, frompos, truncate, old(lock.cpos), |old(lock.key.content)|)
  {
    hide RamFile.FileOk, RamFile.CursorsOk, RamLocks.LockListOk, Sought, RamFile.Furthest, Target, SeekRefused;
    assert NodeOk(gd.nodes, lock.key);
    r := SeekInFile(gd, lock, dest, frompos, truncate);
    forall m {:trigger NodeOk(gd.nodes, m)} | m in gd.nodes && m != lock.key
      ensures NodeOk(gd.nodes, m) == old(NodeOk(gd.nodes, m))
    {
    }
    assert NodeOk(gd.nodes, lock.key);
  }

  /** The space in use follows the blocks of the file. */
  method SeekInSpace(gd: GlobalData, lock: RamLock, dest: int, frompos: int, truncate: bool) returns (r: int)
    requires StructureOk(gd) && RamLocks.LockListOk(gd.lockList, gd.locks) && RamFile.FileOk(lock.key)
    requires lock.key.chain != []
    requires lock in gd.locks && lock.key in gd.nodes && lock.key.kind.File?
    requires RamFile.CursorsOk(gd.locks, lock.key)
    modifies lock`block, lock`offset, lock`cpos, lock`modified, lock`index, gd`fileErr
    modifies lock.key`content, lock.key`chain, lock.key`size, gd`spaceUsed
    modifies lock.key.chain, set b | b in lock.key.chain :: b.bytes
    ensures StructureOk(gd) && RamFile.FileOk(lock.key) && RamFile.CursorsOk(gd.locks, lock.key)
    ensures lock.key.chain != []
    ensures forall b :: b in lock.key.chain && b !in old(lock.key.chain) ==> fresh(b) && fresh(b.bytes)
    ensures Sought(dest, frompos, truncate, old(lock.cpos), old(lock.key.content),
                   old(RamFile.Furthest(gd.locks, lock.key, lock, Target(lock, dest, frompos))),
                   r, lock.cpos, lock.key.content)
    ensures gd.reliable && r == -1 ==> SeekRefused(dest, frompos, truncate, old(lock.cpos), |old(lock.key.content)|)
  {
    hide TreeOk, Sought;
    ghost var n := lock.key;
    ghost var counts: map<ObjNode, nat> := BlockCounts(gd.nodes);
    r := SeekInTree(gd, lock, dest, frompos, truncate);
    SumChange(counts, n, |n.chain|);
    assert BlockCounts(gd.nodes) == counts[n := |n.chain|];
  }

  method SeekInFiles(gd: GlobalData, lock: RamLock, dest: int, frompos: int, truncate: bool) returns (r: int)
    requires StructureOk(gd) && RamLocks.LockListOk(gd.lockList, gd.locks) && FilesOk(gd.nodes) && lock in gd.locks
    requires lock.key in gd.nodes && lock.key.kind.File?
    requires RamFile.CursorsOk(gd.locks, lock.key)
    modifies lock`block, lock`offset, lock`cpos, lock`modified, lock`index, gd`fileErr
    modifies lock.key`content, lock.key`chain, lock.key`size, gd`spaceUsed
    modifies lock.key.chain, set b | b in lock.key.chain :: b.bytes
    ensures StructureOk(gd) && FilesOk(gd.nodes) && RamFile.CursorsOk(gd.locks, lock.key)
    ensures Sought(dest, frompos, truncate, old(lock.cpos), old(lock.key.content),
                   old(RamFile.Furthest(gd.locks, lock.key, lock, Target(lock, dest, frompos))),
                   r, lock.cpos, lock.key.content)
    ensures gd.reliable && r == -1 ==> SeekRefused(dest, frompos, truncate, old(lock.cpos), |old(lock.key.content)|)
  {
    hide StructureOk, Sought;
    ghost var n := lock.key;
    ghost var chain0, arrays0 := n.chain, set b | b in n.chain :: b.bytes;
    assert DataOk(n);
    r := SeekInSpace(gd, lock, dest, frompos, truncate);
    forall m, k {:trigger ChainsApart(m, k)} | m in gd.nodes && k in gd.nodes
      ensures ChainsApart(m, k)
    {
      assert old(ChainsApart(m, k));
    }
    forall m {:trigger DataOk(m)} | m in gd.nodes
      ensures DataOk(m)
    {
      assert old(DataOk(m) && ChainsApart(n, m));
      if m != n && m.kind.File? {
        forall i | 0 <= i < |m.chain|
          ensures m.chain[i] !in chain0 && m.chain[i].bytes !in arrays0
        {
          assert forall b :: b in chain0 ==> RamFile.Apart(b, m.chain[i]);
        }
        forall i, j {:trigger RamFile.ByteOk(m.chain, m.content, i, j)}
          ensures RamFile.ByteOk(m.chain, m.content, i, j)
        {
          assert old(RamFile.ByteOk(m.chain, m.content, i, j));
        }
      }
    }
  }

  /** A seek keeps the state of the whole handler consistent. */
  method SeekKeeps(gd: GlobalData, lock: RamLock, dest: int, frompos: int, truncate: bool,
                   ghost meaning: map<ObjNode, Attributes>)
    returns (r: int)
    requires HandlerOk(gd) && lock in gd.locks && lock.key.kind.File?
    requires Means(gd.nodes - LeadingTo(gd.nodes, lock.key), meaning)
    modifies lock`block, lock`offset, lock`cpos, lock`modified, lock`index, gd`fileErr
    modifies lock.key`content, lock.key`chain, lock.key`size, gd`spaceUsed
    modifies lock.key.chain, set b | b in lock.key.chain :: b.bytes
    ensures HandlerOk(gd) && Means(gd.nodes - LeadingTo(gd.nodes, lock.key), meaning)
    ensures Sought(dest, frompos, truncate, old(lock.cpos), old(lock.key.content),
                   old(RamFile.Furthest(gd.locks, lock.key, lock,
                                        Target(lock, dest, frompos))), r, lock.cpos, lock.key.content)
    ensures gd.reliable && r == -1 ==> SeekRefused(dest, frompos, truncate, old(lock.cpos), |old(lock.key.content)|)
  {
    hide StructureOk, Sought;
    r := SeekInFiles(gd, lock, dest, frompos, truncate);
  }

  /** rh_Seek between two packets. */
  method Seek(gd: GlobalData, lock: RamLock, dest: int, frompos: int, truncate: bool,
              ghost meaning: map<ObjNode, Attributes>)
    returns (r: int)
    requires HandlerOk(gd) && lock in gd.locks && lock.key.kind.File?
    requires Means(gd.nodes - LeadingTo(gd.nodes, lock.key), meaning)
    modifies lock`block, lock`offset, lock`cpos, lock`modified, lock`index, gd`fileErr
    modifies lock.key`content, lock.key`chain, lock.key`size, gd`spaceUsed
    modifies lock.key.chain, set b | b in lock.key.chain :: b.bytes
    ensures HandlerOk(gd) && Means(gd.nodes - LeadingTo(gd.nodes, lock.key), meaning)
    ensures old(lock.cpos) >= 0
    ensures SeekRefused(dest, frompos, truncate, old(lock.cpos), |old(lock.key.content)|) ==>
              r == -1 && StateOf(gd.locks, lock.key) == old(StateOf(gd.locks, lock.key))
    ensures !SeekRefused(dest, frompos, truncate, old(lock.cpos), |old(lock.key.content)|) ==>
              Step(old(StateOf(gd.locks, lock.key)), SeekFile(lock, old(Target(lock, dest, frompos)), truncate, r),
                   StateOf(gd.locks, lock.key))
    ensures gd.reliable && r == -1 ==> SeekRefused(dest, frompos, truncate, old(lock.cpos), |old(lock.key.content)|)
  {
    hide StructureOk, FilesOk, HandlesIn, RamLocks.TableOk, Means;
    HandlesInFile(gd, lock);
    FurthestIs(gd.locks, lock.key, lock, Target(lock, dest, frompos));
    ghost var before := StateOf(gd.locks, lock.key);
    r := SeekKeeps(gd, lock, dest, frompos, truncate, meaning);
    assert StateOf(gd.locks, lock.key).cursors == before.cursors[lock := lock.cpos];
  }

  // ---------------------------------------------------------------- rh_Read

  /** A read keeps the state of the whole handler consistent. */
  method ReadKeeps(gd: GlobalData, lock: RamLock, buf: array<byte>, size: int, ghost meaning: map<ObjNode, Attributes>)
    returns (count: int)
    requires HandlerOk(gd) && lock in gd.locks && lock.key.kind.File? && Means(gd.nodes, meaning)
    requires size <= buf.Length && buf !in ArraysOf(gd.nodes)
    modifies lock`block, lock`offset, lock`cpos, lock`index, buf
    ensures HandlerOk(gd) && Means(gd.nodes, meaning)
    ensures count == ReadCount(|lock.key.content|, old(lock.cpos), size) && lock.cpos == old(lock.cpos) + count
    ensures forall i :: 0 <= i < count ==> buf[i] == lock.key.content[old(lock.cpos) + i]
    ensures forall i :: count <= i < buf.Length ==> buf[i] == old(buf[i])
  {
    hide StructureOk, RamLocks.TableOk;
    assert DataOk(lock.key);
    count := RamFile.Read(lock, lock.key, buf, size);
    forall n {:trigger DataOk(n)} | n in gd.nodes
      ensures DataOk(n) == old(DataOk(n))
    {
    }
  }

  /** rh_Read between two packets moves a cursor and nothing else. */
  method Read(gd: GlobalData, lock: RamLock, buf: array<byte>, size: int, ghost meaning: map<ObjNode, Attributes>)
    returns (count: int)
    requires HandlerOk(gd) && lock in gd.locks && lock.key.kind.File? && Means(gd.nodes, meaning)
    requires size <= buf.Length && buf !in ArraysOf(gd.nodes)
    modifies lock`block, lock`offset, lock`cpos, lock`index, buf
    ensures HandlerOk(gd) && Means(gd.nodes, meaning)
    ensures 0 <= count <= buf.Length && lock.cpos == old(lock.cpos) + count
    ensures Step(old(StateOf(gd.locks, lock.key)), ReadFile(lock, size, buf[..count]), StateOf(gd.locks, lock.key))
    ensures forall i :: count <= i < buf.Length ==> buf[i] == old(buf[i])
  {
    hide StructureOk, FilesOk, HandlesIn, RamLocks.TableOk, Means;
    HandlesInFile(gd, lock);
    ghost var before := StateOf(gd.locks, lock.key);
    count := ReadKeeps(gd, lock, buf, size, meaning);
    assert buf[..count] == lock.key.content[before.cursors[lock]..before.cursors[lock] + count];
    assert StateOf(gd.locks, lock.key).cursors == before.cursors[lock := lock.cpos];
  }

  // ---------------------------------------------------------------- rh_Locate, rh_Open of an existing file

  /** rh_GetLock on a node that was found; a new handle starts at the first byte. */
  method LockLive(gd: GlobalData, node: ObjNode, access: int, ghost meaning: map<ObjNode, Attributes>)
    returns (lock: RamLock?)
    requires HandlerOk(gd) && node in gd.nodes && !node.kind.IsLink() && Means(gd.nodes, meaning)
    modifies gd`lockList, gd`locks, gd`fileErr
    ensures HandlerOk(gd) && Means(gd.nodes, meaning)
    ensures lock == null ==> gd.locks == old(gd.locks) && gd.fileErr != ObjectNotFound
    ensures lock == null ==> !gd.reliable || RamLocks.Conflicts(gd.locks, node, access)
    ensures lock == null ==>
              gd.fileErr == if RamLocks.Conflicts(gd.locks, node, access) then ObjectInUse else NoFreeStore
    ensures lock != null ==>
              fresh(lock) && gd.locks == [lock] + old(gd.locks) && lock.key == node && lock.access == access
    ensures lock != null ==> lock.cpos == 0
    ensures lock != null ==> !old(RamLocks.Conflicts(gd.locks, node, access))
  {
    hide StructureOk, RamLocks.TableOk, RamLocks.Conflicts, RamLocks.Runs.View, RamLocks.Runs.Apply;
    ghost var blocks, arrays := BlocksOf(gd.nodes), ArraysOf(gd.nodes);  // the frame of FilesOk
    assert DataOk(node);
    lock := RamLocks.GetLock(gd, node, access);
  }

  /** The same, seen from the file. */
  method LockFound(gd: GlobalData, node: ObjNode, access: int, ghost meaning: map<ObjNode, Attributes>)
    returns (lock: RamLock?)
    requires HandlerOk(gd) && node in gd.nodes && !node.kind.IsLink() && Means(gd.nodes, meaning)
    modifies gd`lockList, gd`locks, gd`fileErr
    ensures HandlerOk(gd) && Means(gd.nodes, meaning)
    ensures lock == null ==> gd.locks == old(gd.locks) && gd.fileErr != ObjectNotFound
    ensures lock == null ==> !gd.reliable || RamLocks.Conflicts(gd.locks, node, access)
    ensures lock == null ==>
              gd.fileErr == if RamLocks.Conflicts(gd.locks, node, access) then ObjectInUse else NoFreeStore
    ensures lock != null ==>
              fresh(lock) && gd.locks == [lock] + old(gd.locks) && lock.key == node && lock.access == access
    ensures lock != null ==> Step(old(StateOf(gd.locks, node)), OpenFile(lock), StateOf(gd.locks, node))
    ensures lock != null ==> !old(RamLocks.Conflicts(gd.locks, node, access))
  {
    hide StructureOk, FilesOk, HandlesIn, RamLocks.TableOk, Means, RamLocks.Conflicts;
    ghost var before := StateOf(gd.locks, node);
    lock := LockLive(gd, node, access, meaning);
    assert lock != null ==> StateOf(gd.locks, node).cursors == before.cursors[lock := 0];
  }

  /** What a name leads to, if anything. */
  method FindLive(gd: GlobalData, dptr: ObjNode, name: string) returns (found: bool, cur: ObjNode, ghost entry: ObjNode)
    requires StructureOk(gd) && dptr in gd.nodes && !dptr.kind.IsLink()
    modifies gd`fileErr
    ensures found ==>
              RamRename.Finds(dptr, name, entry) && cur == Resolve(entry) && cur in gd.nodes && !cur.kind.IsLink()
    ensures found ==> forall k :: RamRename.Finds(dptr, name, k) ==> k == entry
    ensures found && name != "" ==> dptr.kind == UserDir
    ensures !found ==> name != "" && gd.fileErr == if dptr.kind != UserDir then ObjectWrongType else ObjectNotFound
    ensures !found && dptr.kind == UserDir ==> forall k :: k in dptr.kids ==> !SameName(name, k.name)
  {
    hide RamLocks.TableOk;
    InTree(gd, dptr);
    found, cur, entry := RamRename.FindNode(gd, dptr, name, true);
    if !found {
      return;
    }
    if name != "" {
      RamRename.OnlyOne(dptr, entry, name);
      InTree(gd, entry);
      assert entry.kind.IsLink() ==> NodeOk(gd.nodes, entry.target);
    }
  }

  /** rh_Locate: a lock on what a name leads to, with any access mode. Nothing but the lock table
      changes. */
  method Locate(gd: GlobalData, dptr: ObjNode, name: string, access: int, ghost meaning: map<ObjNode, Attributes>)
    returns (lock: RamLock?, ghost entry: ObjNode?)
    requires HandlerOk(gd) && dptr in gd.nodes && !dptr.kind.IsLink() && Means(gd.nodes, meaning)
    modifies gd`lockList, gd`locks, gd`fileErr
    ensures HandlerOk(gd) && Means(gd.nodes, meaning)
    ensures lock == null ==> gd.locks == old(gd.locks)
    ensures lock == null && dptr.kind == UserDir ==>
              (gd.fileErr == ObjectNotFound <==> name != "" && forall k :: k in dptr.kids ==> !SameName(name, k.name))
    ensures lock == null && gd.reliable && (dptr.kind == UserDir || name == "") ==>
              forall k :: RamRename.Finds(dptr, name, k) ==> RamLocks.Conflicts(gd.locks, Resolve(k), access)
    ensures lock == null && dptr.kind != UserDir && name != "" ==> gd.fileErr == ObjectWrongType
    ensures lock == null && (dptr.kind == UserDir || name == "") ==>
              forall k :: RamRename.Finds(dptr, name, k) ==>
                gd.fileErr == if RamLocks.Conflicts(gd.locks, Resolve(k), access) then ObjectInUse else NoFreeStore
    ensures lock != null ==> fresh(lock) && gd.locks == [lock] + old(gd.locks) && lock.access == access
    ensures lock != null ==> entry != null && RamRename.Finds(dptr, name, entry) && lock.key == Resolve(entry)
    ensures lock != null ==> forall k :: RamRename.Finds(dptr, name, k) ==> k == entry
    ensures lock != null ==> lock.key in gd.nodes && !old(RamLocks.Conflicts(gd.locks, Resolve(entry), access))
    ensures lock != null ==> Step(old(StateOf(gd.locks, Resolve(entry))), OpenFile(lock), StateOf(gd.locks, lock.key))
  {
    hide FilesOk, HandlesIn, RamLocks.TableOk, RamLocks.Conflicts, Step, SameName;
    ghost var blocks, arrays := BlocksOf(gd.nodes), ArraysOf(gd.nodes);  // the frame of FilesOk
    lock, entry := null, null;
    var found, cur;
    ghost var e;
    found, cur, e := FindLive(gd, dptr, name);
    if !found {
      return;
    }
    entry := e;
    lock := LockFound(gd, cur, access, meaning);
  }

  /** rh_Open gives the lock back when it is not on a file. */
  method KeepIfFile(gd: GlobalData, lock: RamLock, ghost others: seq<RamLock>, ghost meaning: map<ObjNode, Attributes>)
    returns (ok: bool)
    requires HandlerOk(gd) && gd.locks == [lock] + others && Means(gd.nodes, meaning)
    modifies gd`lockList, gd`locks, gd`fileErr, lock`next, others`next
    ensures HandlerOk(gd) && Means(gd.nodes, meaning)
    ensures ok <==> lock.key.kind == File
    ensures gd.locks == if ok then [lock] + others else others
    ensures !ok ==> gd.fileErr == ObjectWrongType
  {
    hide StructureOk, FilesOk, RamLocks.TableOk;
    ghost var blocks, arrays := BlocksOf(gd.nodes), ArraysOf(gd.nodes);  // the frame of FilesOk
    if lock.key.kind == File {
      return true;
    }
    assert HandlesIn(others, gd.nodes);
    TempUnlock(gd, lock, others, meaning);
    gd.fileErr := ObjectWrongType;
    return false;
  }

  /** rh_Open with MODE_OLDFILE: a handle on the file a name leads to, or no handle at all.
      Nothing but the lock table changes. */
  method OpenOld(gd: GlobalData, dptr: ObjNode, name: string, ghost meaning: map<ObjNode, Attributes>)
    returns (lock: RamLock?, ghost entry: ObjNode?)
    requires HandlerOk(gd) && dptr in gd.nodes && !dptr.kind.IsLink() && Means(gd.nodes, meaning)
    modifies gd`lockList, gd`locks, gd`fileErr, gd.locks`next
    ensures HandlerOk(gd) && Means(gd.nodes, meaning)
    ensures lock == null ==> gd.locks == old(gd.locks)
    ensures lock != null ==> fresh(lock) && gd.locks == [lock] + old(gd.locks) && lock.access == SHARED_LOCK
    ensures lock != null ==> entry != null && RamRename.Finds(dptr, name, entry) && lock.key == Resolve(entry)
    ensures lock != null ==> lock.key in gd.nodes && lock.key.kind == File && lock.cpos == 0
    ensures lock != null ==> Step(old(StateOf(gd.locks, Resolve(entry))), OpenFile(lock), StateOf(gd.locks, lock.key))
    ensures lock == null && dptr.kind == UserDir ==>
              (gd.fileErr == ObjectNotFound <==> name != "" && forall k :: k in dptr.kids ==> !SameName(name, k.name))
    ensures lock == null && gd.reliable && (dptr.kind == UserDir || name == "") ==>
              forall k :: RamRename.Finds(dptr, name, k) ==>
                Resolve(k).kind != File || RamLocks.Conflicts(gd.locks, Resolve(k), SHARED_LOCK)
    ensures lock == null && dptr.kind != UserDir && name != "" ==> gd.fileErr == ObjectWrongType
    ensures lock == null && gd.reliable && (dptr.kind == UserDir || name == "") ==>
              forall k :: RamRename.Finds(dptr, name, k) ==>
                gd.fileErr == if RamLocks.Conflicts(gd.locks, Resolve(k), SHARED_LOCK) then ObjectInUse
                              else ObjectWrongType
  {
    hide StructureOk, FilesOk, HandlesIn, RamLocks.TableOk, Means;
    ghost var others := gd.locks;
    lock, entry := Locate(gd, dptr, name, SHARED_LOCK, meaning);
    if lock == null {
      return;
    }
    assert lock in StateOf(gd.locks, lock.key).cursors && lock.cpos == 0;
    var ok := KeepIfFile(gd, lock, others, meaning);
    if !ok {
      lock := null;
    }
  }

  /** A name that no entry has is free. */
  lemma NobodyNamed(gd: GlobalData, d: ObjNode, name: string)
    requires HandlerOk(gd) && d in gd.nodes && forall k :: k in d.kids ==> !SameName(name, k.name)
    ensures NameFreeIn(gd.nodes, d, name, null)
  {
    forall k | k in gd.nodes && k.parent == d
      ensures !SameName(name, k.name)
    {
      assert ParentOk(gd.nodes, gd.root, k);
    }
  }

  /** And a free name is found on no entry. */
  lemma FreeNotFound(gd: GlobalData, d: ObjNode, name: string)
    requires HandlerOk(gd) && d in gd.nodes && NameFreeIn(gd.nodes, d, name, null)
    ensures forall k :: k in d.kids ==> !SameName(name, k.name)
  {
    assert NodeOk(gd.nodes, d);
  }

  /** rh_Open with MODE_READWRITE: the file is opened as it is, or made when no entry has the
      name. `node` is the file that was made; whatever happens, all older nodes stay. */
  method OpenReadWrite(gd: GlobalData, dptr: ObjNode, name: string, ghost meaning: map<ObjNode, Attributes>)
    returns (lock: RamLock?, ghost entry: ObjNode?, ghost node: ObjNode?)
    requires HandlerOk(gd) && dptr in gd.nodes && dptr.kind == UserDir && Means(gd.nodes, meaning)
    modifies gd`spaceUsed, gd`nodes, gd`lockList, gd`locks, gd`fileErr, gd.locks`next
    modifies gd.nodes`firstChild, gd.nodes`kids, gd.nodes`next, gd.nodes`firstLink, gd.nodes`links, gd.nodes`target
    modifies gd.nodes`kind, gd.nodes`data, gd.nodes`size, gd.nodes`protection, gd.nodes`chain, gd.nodes`content
    ensures HandlerOk(gd) && gd.nodes - {node} == old(gd.nodes) && Means(old(gd.nodes), meaning)
    ensures lock == null ==> gd.locks == old(gd.locks)
    ensures lock != null ==>
              fresh(lock) && gd.locks == [lock] + old(gd.locks) && lock.key in gd.nodes && lock.key.kind == File
    ensures lock != null && node == null ==>
              lock.access == SHARED_LOCK && entry != null && RamRename.Finds(dptr, name, entry)
    ensures lock != null && node == null ==> lock.key == Resolve(entry) && lock.cpos == 0
    ensures node != null ==> fresh(node) && name != "" && old(forall k :: k in dptr.kids ==> !SameName(name, k.name))
    ensures lock != null && node != null ==> lock.key == node && lock.access == EXCLUSIVE_LOCK && lock.cpos == 0
    ensures lock != null && node != null ==> node.content == [] && node.name == name && node.parent == dptr
    ensures gd.reliable && RamRename.GoodName(name) && old(forall k :: k in dptr.kids ==> !SameName(name, k.name)) ==>
              lock != null && node != null
    ensures lock == null && gd.reliable ==>
              forall k :: RamRename.Finds(dptr, name, k) ==>
                Resolve(k).kind != File || RamLocks.Conflicts(gd.locks, Resolve(k), SHARED_LOCK)
    ensures lock == null && gd.reliable && name != "" && old(forall k :: k in dptr.kids ==> !SameName(name, k.name)) ==>
              !RamRename.GoodName(name) && gd.fileErr == InvalidComponentName
    ensures lock == null && gd.reliable ==>
              forall k :: RamRename.Finds(dptr, name, k) ==>
                gd.fileErr == if RamLocks.Conflicts(gd.locks, Resolve(k), SHARED_LOCK) then ObjectInUse
                              else ObjectWrongType
  {
    hide StructureOk, FilesOk, HandlesIn, RamLocks.TableOk, Means, Step, RamCreate.Inherited, SameName;
    node := null;
    ghost var nodes := gd.nodes;
    lock, entry := OpenOld(gd, dptr, name, meaning);
    assert gd.nodes - {node} == nodes;
    if lock != null || gd.fileErr != ObjectNotFound {
      return;
    }
    NobodyNamed(gd, dptr, name);
    lock, node := RamCreate.OpenNew(gd, dptr, name, meaning);
    assert gd.nodes - {node} == nodes;
    if lock == null && gd.reliable {
      FreeNotFound(gd, dptr, name);
    }
  }

  // ---------------------------------------------------------------- rh_FreeLock, rh_Close, rh_ChangeLock

  /** The nodes that mean something else once a lock is freed. */
  ghost function Touched(nodes: set<ObjNode>, lock: RamLock?): set<ObjNode>
    reads nodes`kind, nodes`target
  {
    if lock == null then {} else LeadingTo(nodes, lock.key)
  }

  /** Freeing a lock keeps the state of the whole handler consistent. */
  method FreeKeeps(gd: GlobalData, lock: RamLock?, ghost meaning: map<ObjNode, Attributes>) returns (ok: bool)
    requires HandlerOk(gd) && Means(gd.nodes - Touched(gd.nodes, lock), meaning)
    modifies gd`lockList, gd`locks, gd`fileErr, gd.locks`next, gd.locks`modified, RamLocks.KeyOf(lock)`protection
    ensures HandlerOk(gd) && Means(gd.nodes - Touched(gd.nodes, lock), meaning)
    ensures ok <==> lock == null || lock in old(gd.locks)
    ensures !ok || lock == null ==> gd.locks == old(gd.locks)
    ensures ok && lock != null ==> forall l :: l in gd.locks <==> l in old(gd.locks) && l != lock
    ensures lock != null && ok && old(lock.modified) ==>
              lock.key.protection == old(lock.key.protection).(archive := false)
    ensures lock != null && !(ok && old(lock.modified)) ==> lock.key.protection == old(lock.key.protection)
  {
    hide StructureOk, FilesOk, RamLocks.TableOk, RamFile.CursorOk;
    hide Without, RamLocks.Runs.View, RamLocks.Runs.Apply;
    ghost var blocks, arrays := BlocksOf(gd.nodes), ArraysOf(gd.nodes);  // the frame of FilesOk
    ok := RamLocks.FreeLock(gd, lock);
  }

  /** rh_FreeLock between two packets: the lock goes, and with it the archive bit of an object
      that was changed through it. */
  method FreeLock(gd: GlobalData, lock: RamLock?, ghost meaning: map<ObjNode, Attributes>) returns (ok: bool)
    requires HandlerOk(gd) && Means(gd.nodes - Touched(gd.nodes, lock), meaning)
    modifies gd`lockList, gd`locks, gd`fileErr, gd.locks`next, gd.locks`modified, RamLocks.KeyOf(lock)`protection
    ensures HandlerOk(gd) && Means(gd.nodes - Touched(gd.nodes, lock), meaning)
    ensures ok <==> lock == null || lock in old(gd.locks)
    ensures !ok || lock == null ==> gd.locks == old(gd.locks)
    ensures ok && lock != null ==> forall l :: l in gd.locks <==> l in old(gd.locks) && l != lock
    ensures ok && lock != null ==> Step(old(StateOf(gd.locks, lock.key)), CloseFile(lock), StateOf(gd.locks, lock.key))
    ensures lock != null && ok && old(lock.modified) ==>
              lock.key.protection == old(lock.key.protection).(archive := false)
    ensures lock != null && !(ok && old(lock.modified)) ==> lock.key.protection == old(lock.key.protection)
  {
    hide StructureOk, FilesOk, HandlesIn, RamLocks.TableOk, Means;
    ghost var before: map<RamLock, int> := if lock == null then map[] else StateOf(gd.locks, lock.key).cursors;
    ok := FreeKeeps(gd, lock, meaning);
    assert ok && lock != null ==> StateOf(gd.locks, lock.key).cursors == before - {lock};
  }

  /** rh_Close */
  method Close(gd: GlobalData, lock: RamLock, ghost meaning: map<ObjNode, Attributes>)
    requires HandlerOk(gd) && lock in gd.locks && Means(gd.nodes - LeadingTo(gd.nodes, lock.key), meaning)
    modifies gd`lockList, gd`locks, gd`fileErr, gd.locks`next, gd.locks`modified, lock.key`protection
    ensures HandlerOk(gd) && Means(gd.nodes - LeadingTo(gd.nodes, lock.key), meaning)
    ensures forall l :: l in gd.locks <==> l in old(gd.locks) && l != lock
    ensures Step(old(StateOf(gd.locks, lock.key)), CloseFile(lock), StateOf(gd.locks, lock.key))
    ensures lock.key.protection ==
            if old(lock.modified) then old(lock.key.protection).(archive := false) else old(lock.key.protection)
  {
    hide StructureOk, FilesOk, HandlesIn, RamLocks.TableOk, Means, Step;
    var _ := FreeLock(gd, lock, meaning);
  }

  /** rh_ChangeLock between two packets: only the access mode of one lock may change. */
  method ChangeLock(gd: GlobalData, lock: RamLock?, newmode: int, ghost meaning: map<ObjNode, Attributes>)
    returns (ok: bool)
    requires HandlerOk(gd) && Means(gd.nodes, meaning)
    modifies gd`lockList, gd`locks, gd`fileErr, gd.locks`next, gd.locks`access
    ensures HandlerOk(gd) && Means(gd.nodes, meaning) && forall l :: l in gd.locks <==> l in old(gd.locks)
    ensures ok <==> && lock != null && lock in old(gd.locks)
                    && (newmode == EXCLUSIVE_LOCK && old(lock.access) != EXCLUSIVE_LOCK ==>
                          RamLocks.SoleHolder(old(gd.locks), lock))
    ensures ok ==> lock.access == newmode
    ensures forall l :: l in gd.locks && !(ok && l == lock) ==> l.access == old(l.access)
    ensures !ok && lock != null ==> gd.fileErr == if lock in old(gd.locks) then ObjectInUse else InvalidLock
  {
    hide StructureOk, FilesOk, RamLocks.TableOk, RamLocks.Runs.View, RamLocks.Runs.Apply;
    ghost var blocks, arrays := BlocksOf(gd.nodes), ArraysOf(gd.nodes);  // the frame of FilesOk
    ok := RamLocks.ChangeLock(gd, lock, newmode);
  }

  // ---------------------------------------------------------------- start and rename

  /** The handler starts with an empty root directory and one unit of space in use. */
  method Start(reliable: bool) returns (gd: GlobalData)
    ensures fresh(gd) && fresh(gd.root)
    ensures gd.reliable == reliable
    ensures HandlerOk(gd) && gd.root.kind == UserDir && gd.nodes == {gd.root} && gd.root.kids == []
    ensures gd.locks == [] && gd.spaceUsed == 1
  {
    gd := new GlobalData(reliable);
    assert ParentOk(gd.nodes, gd.root, gd.root);
    assert NodeOk(gd.nodes, gd.root);
    assert BlockCounts(gd.nodes) == map[][gd.root := 0];
    SumAdd(map[], gd.root, 0);
  }

  /** An entry of that name is a hard link, and nothing stands against renaming it. */
  ghost predicate LinkWouldMove(gd: GlobalData, fromDir: ObjNode, fromName: string, toDir: ObjNode, toName: string)
    reads gd`nodes, gd`locks, gd.locks`access, fromDir`kids, fromDir.kids`kind, fromDir.kids`name, toDir`kind
    reads toDir`kids, toDir.kids`name, gd.nodes`parent, gd.nodes`rank
  {
    && RamRename.GoodName(toName)
    && exists k :: k in fromDir.kids && LinkMayMove(gd, fromDir, fromName, toDir, toName, k)
  }

  ghost predicate LinkMayMove(gd: GlobalData, fromDir: ObjNode, fromName: string, toDir: ObjNode, toName: string,
                              k: ObjNode)
    reads gd`nodes, gd`locks, gd.locks`access, fromDir`kids, k`kind, k`name, toDir`kind
    reads toDir`kids, toDir.kids`name, gd.nodes`parent, gd.nodes`rank
  {
    && k.kind.IsLink() && RamRename.MayMove(gd.nodes, fromDir, fromName, toDir, toName, k)
    && !RamLocks.Conflicts(gd.locks, k, SHARED_LOCK)
  }

  /** rh_Rename moves a name within the tree; files, handles, locks and the space in use
      stay as they are, and every node leads to what it led to. The state stays consistent
      exactly when it is not a hard link that is renamed; with memory at hand that is so exactly
      when no link has the name, or something stands against renaming it. */
  method Rename(gd: GlobalData, fromDir: ObjNode, fromName: string, toDir: ObjNode, toName: string,
                ghost meaning: map<ObjNode, Attributes>)
    returns (ok: bool, ghost node: ObjNode?)
    requires HandlerOk(gd) && fromDir in gd.nodes && toDir in gd.nodes && !toDir.kind.IsLink()
    requires Means(gd.nodes, meaning)
    modifies gd`lockList, gd`locks, gd`fileErr, gd.locks`next
    modifies gd.nodes`rank, gd.nodes`next, gd.nodes`kids, gd.nodes`firstChild, gd.nodes`parent, gd.nodes`name
    modifies gd.nodes`firstLink, gd.nodes`links
    ensures HandlerOk(gd) <==> !(ok && node != null && node.kind.IsLink())
    ensures !HandlerOk(gd) ==> old(LinkWouldMove(gd, fromDir, fromName, toDir, toName))
    ensures gd.reliable ==> (HandlerOk(gd) <==> !old(LinkWouldMove(gd, fromDir, fromName, toDir, toName)))
    ensures TreeOkLoose(gd.nodes, gd.root, RamRename.LooseAfter(node)) && SpaceOk(gd) && FilesOk(gd.nodes)
    ensures RamLocks.TableOk(gd) && HandlesIn(gd.locks, gd.nodes) && gd.locks == old(gd.locks)
    ensures Means(gd.nodes, meaning)
    ensures forall n :: n in gd.nodes && n != node ==> n.parent == old(n.parent) && n.name == old(n.name)
    ensures !ok ==> node == null && unchanged(gd.nodes)
    ensures !ok && gd.reliable ==>
              forall k :: k in fromDir.kids && RamRename.MayMove(gd.nodes, fromDir, fromName, toDir, toName, k) ==>
              !RamRename.GoodName(toName) || RamLocks.Conflicts(gd.locks, k, SHARED_LOCK)
    ensures ok ==> node != null && node in gd.nodes && node.parent == toDir && node.name == toName
    ensures ok ==> RamRename.GoodName(toName) && old(RamRename.Names(fromDir, fromName, node))
    ensures !ok && fromDir.kind != UserDir ==> gd.fileErr == ObjectWrongType
    ensures !ok && fromDir.kind == UserDir && (forall k :: k in fromDir.kids ==> !SameName(fromName, k.name)) ==>
              gd.fileErr == ObjectNotFound
    ensures !ok ==>
              forall k :: k in fromDir.kids && SameName(fromName, k.name) ==>
                || (gd.fileErr == NoFreeStore && !gd.reliable)
                || gd.fileErr == if toDir.kind != UserDir then ObjectWrongType
                                 else if !RamRename.NameFree(toDir, k, toName) then ObjectExists
                                 else if RamRename.Below(gd.nodes, toDir, k) && toDir != k then ObjectInUse
                                 else if RamLocks.Conflicts(gd.locks, k, SHARED_LOCK) then ObjectInUse
                                 else if !RamRename.GoodName(toName) then InvalidComponentName else ObjectInUse
  {
    hide SpaceOk, FilesOk, HandlesIn, Means, RamLocks.TableOk, TreeOk, TreeOkLoose, RamRename.MayMove;
    ghost var reach := Resolved(gd.nodes);  // the frame of Means
    ghost var blocks, arrays := BlocksOf(gd.nodes), ArraysOf(gd.nodes);  // the frame of FilesOk
    ok, node := RamRename.Rename(gd, fromDir, fromName, toDir, toName);
    if ok && node.kind.IsLink() {
      assert old(LinkMayMove(gd, fromDir, fromName, toDir, toName, node));
    }
    if !ok && gd.reliable {
      forall k | k in old(fromDir.kids) && old(LinkMayMove(gd, fromDir, fromName, toDir, toName, k))
        ensures !RamRename.GoodName(toName)
      {
        assert RamRename.MayMove(gd.nodes, fromDir, fromName, toDir, toName, k);
      }
    }
  }

  /** The names in a directory belong to nodes of the tree, and none is its own entry. */
  lemma KidsAre(gd: GlobalData, d: ObjNode)
    requires HandlerOk(gd) && d in gd.nodes
    ensures d == gd.root ==> d.kind == UserDir
    ensures gd.root in gd.nodes && forall k :: k in d.kids <==> k in gd.nodes && k.parent == d && k != gd.root
    ensures forall k :: k in d.kids ==> k.parent == d && k != d
  {
    assert NodeOk(gd.nodes, d);
    forall k | k in gd.nodes
      ensures ParentOk(gd.nodes, gd.root, k)
    {
    }
  }

  /** An empty root has no entry that could be in the way. */
  lemma NothingInTheWay(gd: GlobalData, name: string)
    requires HandlerOk(gd)
    ensures gd.root in gd.nodes && gd.root.kind == UserDir
    ensures gd.nodes == {gd.root} ==> forall k :: !RamCreate.InTheWay(gd, gd.root, name, false, k)
  {
    assert ParentOk(gd.nodes, gd.root, gd.root);
    KidsAre(gd, gd.root);
  }

  /** rh_Open for a new file in an empty root. */
  method NewInRoot(gd: GlobalData, name: string, ghost meaning: map<ObjNode, Attributes>)
    returns (lock: RamLock?, ghost node: ObjNode?)
    requires HandlerOk(gd) && gd.nodes == {gd.root} && gd.root.kind == UserDir && Means(gd.nodes, meaning)
    modifies gd`spaceUsed, gd`nodes, gd`lockList, gd`locks, gd`fileErr, gd.locks`next
    modifies gd.nodes`firstChild, gd.nodes`kids, gd.nodes`next, gd.nodes`firstLink, gd.nodes`links, gd.nodes`target
    modifies gd.nodes`kind, gd.nodes`data, gd.nodes`size, gd.nodes`protection, gd.nodes`chain, gd.nodes`content
    ensures HandlerOk(gd) && gd.nodes <= {gd.root, node}
    ensures lock == null ==> gd.locks == old(gd.locks) && (gd.reliable ==> gd.nodes <= {gd.root})
    ensures lock != null ==>
              fresh(lock) && fresh(node) && gd.locks == [lock] + old(gd.locks) && lock.key == node && node in gd.nodes
              && node.kind == File && node.name == name && node.parent == gd.root
    ensures lock == null && gd.reliable ==>
              !RamRename.GoodName(name) || exists k :: RamCreate.InTheWay(gd, gd.root, name, false, k)
  {
    hide StructureOk, FilesOk, HandlesIn, RamLocks.TableOk, SameName, Means, RamCreate.InTheWay, RamRename.GoodName;
    hide RamCreate.Inherited, RamCreate.OnlyNameGone, HandlerOk, TreeOk, SpaceOk;
    lock, node := RamCreate.OpenNew(gd, gd.root, name, meaning);
  }

  /** A file in the root, and a handle on it. */
  method OneFile() returns (gd: GlobalData, lock: RamLock, ghost file: ObjNode)
    ensures HandlerOk(gd) && gd.reliable && gd.root.kind == UserDir && gd.nodes == {gd.root, file} && file != gd.root
    ensures file.name == "a" && file.parent == gd.root && file.kind == File && lock.key == file && gd.locks == [lock]
    ensures fresh(gd) && fresh(gd.nodes) && fresh(lock)
  {
    gd := Start(true);
    ghost var meaning := map[gd.root := AttributesOf(Resolve(gd.root))];
    var l;
    ghost var node;
    assert RamRename.GoodName("a");
    hide StructureOk, FilesOk, HandlesIn, RamLocks.TableOk, SameName, Means, RamCreate.InTheWay, RamRename.GoodName;
    hide RamCreate.Inherited, RamCreate.OnlyNameGone, HandlerOk, TreeOk, SpaceOk, Resolve, AttributesOf;
    l, node := NewInRoot(gd, "a", meaning);
    NothingInTheWay(gd, "a");
    lock, file := l, node;
  }

  lemma OneLetter(c: char, d: char)
    ensures SameName([c], [d]) <==> Lower(c) == Lower(d)
  {
    assert [c][1..] == [] && [d][1..] == [];
    assert Fold([c]) == [Lower(c)] && Fold([d]) == [Lower(d)];
  }

  lemma RootIsBelowNothing(gd: GlobalData, k: ObjNode)
    requires HandlerOk(gd) && gd.root in gd.nodes && k != gd.root
    ensures !RamRename.Below(gd.nodes, gd.root, k)
  {
    assert ParentOk(gd.nodes, gd.root, gd.root);
  }

  /** Then a hard link `b` to it, in a state that Rename to `c` breaks, as its contract says. */
  method OneLink() returns (gd: GlobalData, lock: RamLock, ghost link: ObjNode)
    ensures HandlerOk(gd) && gd.reliable && gd.root in gd.nodes && gd.root.kind == UserDir
    ensures LinkWouldMove(gd, gd.root, "b", gd.root, "c") && link in gd.root.kids
    ensures LinkMayMove(gd, gd.root, "b", gd.root, "c", link)
    ensures fresh(gd) && fresh(gd.nodes) && fresh(lock) && forall l :: l in gd.locks ==> l == lock
  {
    hide StructureOk, FilesOk, HandlesIn, RamLocks.TableOk, RamRename.Below, Fold;
    var ok;
    ghost var file, node;
    gd, lock, file := OneFile();
    ghost var meaning := map[gd.root := AttributesOf(Resolve(gd.root)), file := AttributesOf(Resolve(file))];
    OneLetter('b', 'a');
    OneLetter('c', 'a');
    OneLetter('b', 'b');
    assert RamRename.GoodName("b");
    ok, node := RamCreate.Makelink(gd, gd.root, "b", lock, meaning);
    KidsAre(gd, gd.root);
    assert gd.nodes == {gd.root, file} || gd.nodes == {gd.root, file, node};
    assert gd.nodes == {gd.root, file} ==> !RamCreate.Named(gd.root, "b");
    assert ok;
    link := node;
    RootIsBelowNothing(gd, link);
    assert RamRename.NameFree(gd.root, link, "c");
    assert forall l: RamLock :: l in gd.locks ==> l == lock;
    assert !RamLocks.Conflicts(gd.locks, link, SHARED_LOCK) && RamRename.GoodName("c");
    assert LinkMayMove(gd, gd.root, "b", gd.root, "c", link);
  }
}
