/** rh_CreateObject, rh_Open and rh_Makelink of the RAM handler. */
module RamCreate {
  import opened Lists
  import opened RamTypes
  import opened RamTree
  import opened RamSpace
  import opened RamDelete
  import RamFile
  import RamLocks
  import RamRename

  // ---------------------------------------------------------------- rh_CreateObject

  /** The entry made by rh_CreateObject: an empty directory, until the caller changes its type. */
  ghost predicate IsBlank(n: ObjNode)
    reads n`kind, n`kids, n`links, n`chain, n`data, n`target, n`size, n`content
  {
    n.kind == UserDir && n.kids == [] && n.links == [] && n.chain == [] && n.data == null && n.target == null
    && n.size == 0 && n.content == []
  }

  /** Links a new node into the tree. */
  method JoinTree(gd: GlobalData, dptr: ObjNode, node: ObjNode)
    requires TreeOk(gd.nodes, gd.root) && dptr in gd.nodes && dptr.kind == UserDir && node !in gd.nodes
    requires IsBlank(node) && node.firstChild == null && node.firstLink == null
    requires NameFreeIn(gd.nodes, dptr, node.name, null)
    modifies gd`nodes, dptr`firstChild, dptr`kids, node`next, node`parent, node`rank
    ensures TreeOk(gd.nodes, gd.root) && gd.nodes == old(gd.nodes) + {node} && node.parent == dptr && node in dptr.kids
  {
    assert NodeOk(gd.nodes, dptr);
    hide TreeOkBut;
    node.rank := dptr.rank + 1;
    JoinLeaf(gd.nodes, gd.root, node);
    ghost var more := gd.nodes + {node};
    Attach(more, gd.root, dptr, node);
    gd.nodes := more;
  }

  /** The space in use grows with the tree. */
  method JoinSpace(gd: GlobalData, dptr: ObjNode, node: ObjNode)
    requires StructureOk(gd) && dptr in gd.nodes && dptr.kind == UserDir && node !in gd.nodes
    requires IsBlank(node) && node.firstChild == null && node.firstLink == null
    requires NameFreeIn(gd.nodes, dptr, node.name, null)
    modifies gd`spaceUsed, gd`nodes, dptr`firstChild, dptr`kids, node`next, node`parent, node`rank
    ensures StructureOk(gd) && gd.nodes == old(gd.nodes) + {node} && node.parent == dptr && node in dptr.kids
  {
    hide TreeOk, NameFreeIn;
    ghost var counts: map<ObjNode, nat> := BlockCounts(gd.nodes);
    gd.spaceUsed := gd.spaceUsed + 1;
    JoinTree(gd, dptr, node);
    SumAdd(counts, node, 0);
    assert BlockCounts(gd.nodes) == counts[node := 0];
  }

  /** The allocation of the node in rh_CreateObject. */
  method JoinNew(gd: GlobalData, dptr: ObjNode, name: string, protection: Protection) returns (node: ObjNode)
    requires StructureOk(gd) && dptr in gd.nodes && dptr.kind == UserDir && NameFreeIn(gd.nodes, dptr, name, null)
    modifies gd`spaceUsed, gd`nodes, dptr`firstChild, dptr`kids
    ensures StructureOk(gd) && fresh(node) && gd.nodes == old(gd.nodes) + {node}
    ensures IsBlank(node) && node.parent == dptr && node in dptr.kids && node.name == name
    ensures node.protection == protection
  {
    node := new ObjNode(name, null, UserDir, protection);
    JoinSpace(gd, dptr, node);
  }

  lemma FilesMore(nodes: set<ObjNode>, node: ObjNode)
    requires FilesOk(nodes) && IsBlank(node)
    ensures FilesOk(nodes + {node})
  {
    var more := nodes + {node};
    forall n {:trigger DataOk(n)} | n in more
      ensures DataOk(n)
    {
    }
    forall n, m {:trigger ChainsApart(n, m)} | n in more && m in more
      ensures ChainsApart(n, m)
    {
      assert n in nodes && m in nodes ==> ChainsApart(n, m);
    }
  }

  /** A new node disturbs no file. */
  method JoinFiles(gd: GlobalData, dptr: ObjNode, name: string, protection: Protection) returns (node: ObjNode)
    requires StructureOk(gd) && FilesOk(gd.nodes) && dptr in gd.nodes && dptr.kind == UserDir
    requires NameFreeIn(gd.nodes, dptr, name, null)
    modifies gd`spaceUsed, gd`nodes, dptr`firstChild, dptr`kids
    ensures StructureOk(gd) && FilesOk(gd.nodes) && fresh(node) && gd.nodes == old(gd.nodes) + {node}
    ensures IsBlank(node) && node.parent == dptr && node in dptr.kids && node.name == name
    ensures node.protection == protection
  {
    ghost var nodes := gd.nodes;
    node := JoinNew(gd, dptr, name, protection);
    FilesMore(nodes, node);
  }

  /** The node that rh_CreateObject allocates disturbs no handle and no meaning. */
  method NewNode(gd: GlobalData, dptr: ObjNode, name: string, protection: Protection,
                 ghost meaning: map<ObjNode, Attributes>)
    returns (node: ObjNode)
    requires HandlerOk(gd) && Means(gd.nodes, meaning) && dptr in gd.nodes && dptr.kind == UserDir
    requires NameFreeIn(gd.nodes, dptr, name, null)
    modifies gd`spaceUsed, gd`nodes, dptr`firstChild, dptr`kids
    ensures HandlerOk(gd) && fresh(node) && gd.nodes == old(gd.nodes) + {node} && Means(old(gd.nodes), meaning)
    ensures IsBlank(node) && node.parent == dptr && node in dptr.kids && node.name == name
    ensures node.protection == protection
  {
    hide StructureOk, FilesOk, RamLocks.TableOk, RamFile.CursorOk;
    ghost var nodes := gd.nodes;
    node := JoinFiles(gd, dptr, name, protection);
    assert Means(nodes, meaning) && HandlesIn(gd.locks, nodes);
  }

  lemma BlankCursor(lock: RamLock, node: ObjNode)
    requires IsBlank(node) && lock.block == node.data && lock.offset == FIRSTBUFFPOS && lock.cpos == 0
    requires lock.index == 0
    ensures RamFile.CursorOk(lock, node)
  {
  }

  /** rh_GetLock at the end of rh_CreateObject: nobody else can hold a lock on a new node. */
  method LockNew(gd: GlobalData, node: ObjNode, mode: int, ghost meaning: map<ObjNode, Attributes>)
    returns (lock: RamLock?)
    requires HandlerOk(gd) && node in gd.nodes && IsBlank(node) && Means(gd.nodes - {node}, meaning)
    requires forall l :: l in gd.locks ==> l.key != node
    modifies gd`lockList, gd`locks, gd`fileErr
    ensures HandlerOk(gd) && Means(gd.nodes - {node}, meaning)
    ensures lock == null ==> gd.locks == old(gd.locks) && !gd.reliable
    ensures lock != null ==>
              fresh(lock) && gd.locks == [lock] + old(gd.locks) && lock.key == node && lock.modified
                && lock.access == mode
  {
    hide StructureOk, FilesOk, HandlesIn, RamLocks.TableOk, RamFile.CursorOk, RamLocks.Runs.View, RamLocks.Runs.Apply;
    ghost var blocks, arrays := BlocksOf(gd.nodes), ArraysOf(gd.nodes);  // the frame of FilesOk
    lock := RamLocks.GetLock(gd, node, mode);
    if lock == null {
      return;
    }
    BlankCursor(lock, node);
    HandlesMore(old(gd.locks), gd.nodes, lock);
    lock.modified := true;
  }

  /** An entry that keeps rh_CreateObject from using its name: a directory, or one that cannot
      be deleted. */
  ghost predicate InTheWay(gd: GlobalData, d: ObjNode, name: string, isDir: bool, k: ObjNode)
    reads gd`locks, d`kids, k`name, k`kids, k`protection, k`kind, k`target, Resolve(k)`kind
  {
    && k in d.kids && SameName(name, k.name)
    && (isDir || Resolve(k).kind == UserDir || !Deletable(d, name, k) || Locked(gd.locks, k))
  }

  ghost predicate Named(d: ObjNode, name: string)
    reads d`kids, d.kids`name
  {
    exists k :: k in d.kids && SameName(name, k.name)
  }

  /** The protection that a new entry takes over from the one it replaces. */
  ghost function Inherited(d: ObjNode, name: string): Protection
    reads d`kids, d.kids`name, d.kids`kind, d.kids`target, Resolved(set k | k in d.kids)`protection
  {
    if Named(d, name) then
      var k :| k in d.kids && SameName(name, k.name);
      Resolve(k).protection
    else
      NO_PROTECTION
  }

  lemma OnlyNamed(kids: seq<ObjNode>, name: string, a: ObjNode, b: ObjNode)
    requires NamesOk(kids) && a in kids && b in kids && SameName(name, a.name) && SameName(name, b.name)
    ensures a == b
  {
    var i :| 0 <= i < |kids| && kids[i] == a;
    var j :| 0 <= j < |kids| && kids[j] == b;
  }

  lemma InheritedIs(d: ObjNode, name: string, k: ObjNode)
    requires NamesOk(d.kids) && RamRename.Names(d, name, k)
    ensures Inherited(d, name) == Resolve(k).protection
  {
    var m :| m in d.kids && SameName(name, m.name) && Inherited(d, name) == Resolve(m).protection;
    OnlyNamed(d.kids, name, k, m);
  }

  lemma NothingInherited(d: ObjNode, name: string)
    requires forall k :: k in d.kids ==> !SameName(name, k.name)
    ensures Inherited(d, name) == NO_PROTECTION
  {
  }

  /** The checks of rh_CreateObject; `protection` is what the new node inherits. */
  method CreateChecks(gd: GlobalData, dptr: ObjNode, name: string, isDir: bool)
    returns (ok: bool, protection: Protection)
    requires StructureOk(gd) && dptr in gd.nodes && dptr.kind == UserDir
    modifies gd`fileErr
    ensures ok ==> RamRename.GoodName(name) && name != "" && protection == old(Inherited(dptr, name))
    ensures ok ==> forall k :: k in dptr.kids && SameName(name, k.name) ==> !isDir && Resolve(k).kind != UserDir
    ensures !ok ==> !RamRename.GoodName(name) || exists k :: InTheWay(gd, dptr, name, isDir, k)
    ensures !ok ==>
              if !RamRename.GoodName(name) then gd.fileErr == InvalidComponentName
              else forall k :: k in dptr.kids && SameName(name, k.name) ==>
                gd.fileErr == ObjectExists && (isDir || Resolve(k).kind == UserDir)
  {
    InTree(gd, dptr);
    hide StructureOk;
    protection := NO_PROTECTION;
    ok := RamRename.CheckName(gd, name);
    if !ok {
      return;
    }
    var found, cur;
    ghost var entry;
    found, cur, entry := RamRename.FindEntry(gd, dptr, name, true);
    if !found {
      return;
    }
    RamRename.OnlyOne(dptr, entry, name);
    InheritedIs(dptr, name, entry);
    if isDir || cur.kind == UserDir {
      gd.fileErr := ObjectExists;
      assert InTheWay(gd, dptr, name, isDir, entry);
      return false, NO_PROTECTION;
    }
    protection := cur.protection;
  }

  /** Of the nodes before, only those with this name in `d` may be gone. */
  ghost predicate OnlyNameGone(before: set<ObjNode>, now: set<ObjNode>, d: ObjNode, name: string)
    reads before`parent, before`name
  {
    forall k :: k in before && k !in now ==> k.parent == d && SameName(name, k.name)
  }

  /** An entry of the same name makes way for the new one, unless it cannot be deleted. */
  method MakeWay(gd: GlobalData, dptr: ObjNode, name: string, ghost isDir: bool,
                 ghost meaning: map<ObjNode, Attributes>) returns (clear: bool)
    requires HandlerOk(gd) && dptr in gd.nodes && dptr.kind == UserDir && Means(gd.nodes, meaning) && name != ""
    modifies gd`spaceUsed, gd`nodes, gd`lockList, gd`locks, gd`fileErr, gd.locks`next
    modifies gd.nodes`firstChild, gd.nodes`kids, gd.nodes`next, gd.nodes`firstLink, gd.nodes`links, gd.nodes`target
    modifies gd.nodes`kind, gd.nodes`data, gd.nodes`size, gd.nodes`protection, gd.nodes`chain, gd.nodes`content
    ensures HandlerOk(gd) && gd.locks == old(gd.locks) && gd.nodes <= old(gd.nodes) && Means(gd.nodes, meaning)
    ensures OnlyNameGone(old(gd.nodes), gd.nodes, dptr, name)
    ensures clear ==> dptr in gd.nodes && dptr.kind == UserDir && NameFreeIn(gd.nodes, dptr, name, null)
    ensures !clear ==> gd.nodes == old(gd.nodes)
    ensures !clear && gd.reliable ==> exists k :: InTheWay(gd, dptr, name, isDir, k)
    ensures !clear ==> unchanged(gd.nodes)
    ensures !clear && gd.reliable ==>
              forall k :: k in dptr.kids && SameName(name, k.name) ==>
                gd.fileErr == if k.kids != [] then DirectoryNotEmpty
                              else if k.protection.delete then DeleteProtected else ObjectInUse
    ensures clear ==>
              old(forall k :: k in dptr.kids && SameName(name, k.name) ==>
                    Deletable(dptr, name, k) && !Locked(gd.locks, k))
  {
    hide FilesOk, HandlesIn, RamLocks.TableOk, Means, Fold;
    assert NodeOk(gd.nodes, dptr);
    ghost var kids0 := dptr.kids;
    var deleted;
    ghost var node;
    deleted, node := DeleteObject(gd, dptr, name, meaning);
    if deleted {
      forall k | k in kids0 && SameName(name, k.name)
        ensures k == node
      {
        OnlyNamed(kids0, name, k, node);
      }
      return true;
    }
    if gd.fileErr != ObjectNotFound {
      ghost var k :| k in dptr.kids && SameName(name, k.name);
      assert gd.reliable ==> InTheWay(gd, dptr, name, isDir, k);
      return false;
    }
    forall k | k in gd.nodes && k.parent == dptr
      ensures !SameName(name, k.name)
    {
      assert ParentOk(gd.nodes, gd.root, k);
    }
    return true;
  }

  /** The checks, seen from the whole handler. */
  method CreateChecksQuietly(gd: GlobalData, dptr: ObjNode, name: string, isDir: bool,
                             ghost meaning: map<ObjNode, Attributes>)
    returns (ok: bool, protection: Protection)
    requires HandlerOk(gd) && dptr in gd.nodes && dptr.kind == UserDir && Means(gd.nodes, meaning)
    modifies gd`fileErr
    ensures HandlerOk(gd) && Means(gd.nodes, meaning)
    ensures ok ==> RamRename.GoodName(name) && name != "" && protection == old(Inherited(dptr, name))
    ensures ok ==> forall k :: k in dptr.kids && SameName(name, k.name) ==> !isDir && Resolve(k).kind != UserDir
    ensures !ok ==> !RamRename.GoodName(name) || exists k :: InTheWay(gd, dptr, name, isDir, k)
    ensures !ok ==>
              if !RamRename.GoodName(name) then gd.fileErr == InvalidComponentName
              else forall k :: k in dptr.kids && SameName(name, k.name) ==>
                gd.fileErr == ObjectExists && (isDir || Resolve(k).kind == UserDir)
  {
    hide StructureOk, FilesOk, HandlesIn, RamLocks.TableOk, SameName, RamRename.GoodName, InTheWay, Inherited;
    ghost var blocks, arrays := BlocksOf(gd.nodes), ArraysOf(gd.nodes);  // the frame of FilesOk
    ok, protection := CreateChecks(gd, dptr, name, isDir);
  }

  /** rh_CreateObject up to the allocation. */
  method ClearWay(gd: GlobalData, dptr: ObjNode, name: string, isDir: bool, ghost meaning: map<ObjNode, Attributes>)
    returns (clear: bool, protection: Protection)
    requires HandlerOk(gd) && dptr in gd.nodes && dptr.kind == UserDir && Means(gd.nodes, meaning)
    modifies gd`spaceUsed, gd`nodes, gd`lockList, gd`locks, gd`fileErr, gd.locks`next
    modifies gd.nodes`firstChild, gd.nodes`kids, gd.nodes`next, gd.nodes`firstLink, gd.nodes`links, gd.nodes`target
    modifies gd.nodes`kind, gd.nodes`data, gd.nodes`size, gd.nodes`protection, gd.nodes`chain, gd.nodes`content
    ensures HandlerOk(gd) && gd.locks == old(gd.locks) && gd.nodes <= old(gd.nodes) && Means(gd.nodes, meaning)
    ensures OnlyNameGone(old(gd.nodes), gd.nodes, dptr, name)
    ensures clear ==>
              dptr in gd.nodes && dptr.kind == UserDir && NameFreeIn(gd.nodes, dptr, name, null)
                && RamRename.GoodName(name)
    ensures !clear && gd.reliable ==> !RamRename.GoodName(name) || exists k :: InTheWay(gd, dptr, name, isDir, k)
    ensures !clear && gd.reliable ==>
              if !RamRename.GoodName(name) then gd.fileErr == InvalidComponentName
              else forall k :: k in dptr.kids && SameName(name, k.name) ==>
                gd.fileErr == if isDir || Resolve(k).kind == UserDir then ObjectExists
                              else if k.kids != [] then DirectoryNotEmpty
                              else if k.protection.delete then DeleteProtected else ObjectInUse
    ensures clear ==> protection == old(Inherited(dptr, name))
    ensures clear ==> old(forall k :: k in dptr.kids ==> !InTheWay(gd, dptr, name, isDir, k))
  {
    hide HandlerOk, Means, SameName, RamRename.GoodName, Deletable, Locked, Inherited;
    clear, protection := CreateChecksQuietly(gd, dptr, name, isDir, meaning);
    if clear {
      clear := MakeWay(gd, dptr, name, isDir, meaning);
    }
  }

  /** rh_CreateObject up to the new node. */
  method MakeNode(gd: GlobalData, dptr: ObjNode, name: string, isDir: bool, ghost meaning: map<ObjNode, Attributes>)
    returns (node: ObjNode?)
    requires HandlerOk(gd) && dptr in gd.nodes && dptr.kind == UserDir && Means(gd.nodes, meaning)
    modifies gd`spaceUsed, gd`nodes, gd`lockList, gd`locks, gd`fileErr, gd.locks`next
    modifies gd.nodes`firstChild, gd.nodes`kids, gd.nodes`next, gd.nodes`firstLink, gd.nodes`links, gd.nodes`target
    modifies gd.nodes`kind, gd.nodes`data, gd.nodes`size, gd.nodes`protection, gd.nodes`chain, gd.nodes`content
    ensures HandlerOk(gd) && gd.locks == old(gd.locks) && Means(gd.nodes - {node}, meaning)
    ensures node == null ==> gd.nodes <= old(gd.nodes)
    ensures node == null && gd.reliable ==> !RamRename.GoodName(name) || exists k :: InTheWay(gd, dptr, name, isDir, k)
    ensures node == null && gd.reliable ==>
              if !RamRename.GoodName(name) then gd.fileErr == InvalidComponentName
              else forall k :: k in dptr.kids && SameName(name, k.name) ==>
                gd.fileErr == if isDir || Resolve(k).kind == UserDir then ObjectExists
                              else if k.kids != [] then DirectoryNotEmpty
                              else if k.protection.delete then DeleteProtected else ObjectInUse
    ensures node != null ==> old(forall k :: k in dptr.kids ==> !InTheWay(gd, dptr, name, isDir, k))
    ensures OnlyNameGone(old(gd.nodes), gd.nodes, dptr, name)
    ensures node != null ==> fresh(node) && node in gd.nodes && gd.nodes <= old(gd.nodes) + {node} && dptr in gd.nodes
    ensures node != null ==> node.protection == old(Inherited(dptr, name))
    ensures node != null ==> IsBlank(node) && node.name == name && node.parent == dptr && RamRename.GoodName(name)
  {
    hide StructureOk, FilesOk, HandlesIn, RamLocks.TableOk;
    node := null;
    var clear, protection := ClearWay(gd, dptr, name, isDir, meaning);
    ghost var nodes := gd.nodes;
    var ok: bool :| gd.reliable ==> ok;  // AllocVec
    if clear && ok {
      node := NewNode(gd, dptr, name, protection, meaning);
    }
    assert gd.nodes - {node} == nodes;
  }

  /** rh_CreateObject from the new node on: without a lock, it is deleted again. */
  method LockOrUndo(gd: GlobalData, dptr: ObjNode, name: string, node: ObjNode, mode: int,
                    ghost meaning: map<ObjNode, Attributes>)
    returns (lock: RamLock?)
    requires HandlerOk(gd) && dptr in gd.nodes && node in gd.nodes && IsBlank(node) && Means(gd.nodes - {node}, meaning)
    requires forall l :: l in gd.locks ==> l.key != node
    requires name != ""
    modifies gd`spaceUsed, gd`nodes, gd`lockList, gd`locks, gd`fileErr, gd.locks`next
    modifies gd.nodes`firstChild, gd.nodes`kids, gd.nodes`next, gd.nodes`firstLink, gd.nodes`links, gd.nodes`target
    modifies gd.nodes`kind, gd.nodes`data, gd.nodes`size, gd.nodes`protection, gd.nodes`chain, gd.nodes`content
    ensures HandlerOk(gd) && Means(gd.nodes - {node}, meaning) && gd.nodes <= old(gd.nodes)
    ensures OnlyNameGone(old(gd.nodes), gd.nodes, dptr, name)
    ensures lock == null ==> gd.locks == old(gd.locks) && !gd.reliable
    ensures lock != null ==> fresh(lock) && gd.locks == [lock] + old(gd.locks) && lock.modified && lock.access == mode
    ensures lock != null ==>
              lock.key == node && IsBlank(node) && node.protection == old(node.protection) && gd.nodes == old(gd.nodes)
  {
    hide StructureOk, FilesOk, HandlesIn, RamLocks.TableOk, SameName, HandlerOk;
    lock := LockNew(gd, node, mode, meaning);
    if lock == null {
      ghost var more := meaning[node := AttributesOf(node)];
      var deleted;
      ghost var gone;
      deleted, gone := DeleteObject(gd, dptr, name, more);
    }
  }

  /** rh_CreateObject. The new node is blank and locked; no other name changes what it leads to. */
  method CreateObject(gd: GlobalData, dptr: ObjNode, name: string, mode: int, isDir: bool,
                      ghost meaning: map<ObjNode, Attributes>)
    returns (lock: RamLock?, ghost node: ObjNode?)
    requires HandlerOk(gd) && dptr in gd.nodes && dptr.kind == UserDir && Means(gd.nodes, meaning)
    modifies gd`spaceUsed, gd`nodes, gd`lockList, gd`locks, gd`fileErr, gd.locks`next
    modifies gd.nodes`firstChild, gd.nodes`kids, gd.nodes`next, gd.nodes`firstLink, gd.nodes`links, gd.nodes`target
    modifies gd.nodes`kind, gd.nodes`data, gd.nodes`size, gd.nodes`protection, gd.nodes`chain, gd.nodes`content
    ensures HandlerOk(gd) && Means(gd.nodes - {node}, meaning)
    ensures OnlyNameGone(old(gd.nodes), gd.nodes, dptr, name)
    ensures node == null ==> lock == null && gd.nodes <= old(gd.nodes)
    ensures node != null ==> fresh(node) && gd.nodes <= old(gd.nodes) + {node}
    ensures lock == null && gd.reliable ==> node == null
    ensures lock == null ==> gd.locks == old(gd.locks)
    ensures lock != null ==> fresh(lock) && gd.locks == [lock] + old(gd.locks) && lock.modified && lock.access == mode
    ensures lock != null ==>
              lock.key == node && node in gd.nodes && IsBlank(node) && node.name == name && node.parent == dptr
    ensures lock != null ==> node.protection == old(Inherited(dptr, name))
    ensures lock != null ==> RamRename.GoodName(name) && node != gd.root && forall l :: l in old(gd.locks) ==>
              l.key != node
    ensures lock == null && gd.reliable ==> !RamRename.GoodName(name) || exists k :: InTheWay(gd, dptr, name, isDir, k)
    ensures lock == null && gd.reliable ==>
              if !RamRename.GoodName(name) then gd.fileErr == InvalidComponentName
              else forall k :: k in dptr.kids && SameName(name, k.name) ==>
                gd.fileErr == if isDir || Resolve(k).kind == UserDir then ObjectExists
                              else if k.kids != [] then DirectoryNotEmpty
                              else if k.protection.delete then DeleteProtected else ObjectInUse
    ensures lock != null ==> old(forall k :: k in dptr.kids ==> !InTheWay(gd, dptr, name, isDir, k))
  {
    hide StructureOk, FilesOk, HandlesIn, RamLocks.TableOk, Means, Deletable, Inherited, InTheWay, Named;
    lock, node := null, null;
    var made := MakeNode(gd, dptr, name, isDir, meaning);
    if made == null {
      return;
    }
    lock := LockOrUndo(gd, dptr, name, made, mode, meaning);
    node := made;
  }

  // ---------------------------------------------------------------- rh_Open

  /** The assignments of rh_Open that give a new node its first, empty block. */
  method FirstBlock(gd: GlobalData, lock: RamLock, node: ObjNode) returns (data: DataBlock)
    requires lock.key == node
    modifies node`kind, node`data, node`chain, lock`block, gd`spaceUsed
    ensures fresh(data) && fresh(data.bytes) && data.bytes.Length == MIN_BLKSIZE
    ensures data.next == null && data.size == FIRSTBUFFPOS - 1
    ensures node.kind == File && node.data == data && node.chain == [data] && lock.block == data
    ensures gd.spaceUsed == old(gd.spaceUsed) + 1
  {
    data := new DataBlock();
    node.kind := File;
    node.data := data;
    node.chain := [data];
    lock.block := data;
    gd.spaceUsed := gd.spaceUsed + 1;
  }

  lemma OneBlockOk(data: DataBlock)
    requires data.bytes.Length == MIN_BLKSIZE && data.next == null && data.size == FIRSTBUFFPOS - 1
    ensures RamFile.ChainOk(data, [data], []) && RamFile.Tidy([data])
  {
    assert RamFile.BlockOk([data], 0);
  }

  /** Nothing leads to a node without links but its own name. */
  lemma OnlyItself(nodes: set<ObjNode>, root: ObjNode, node: ObjNode, n: ObjNode)
    requires TreeOk(nodes, root) && node in nodes && node.links == [] && n in nodes && n != node
    ensures Resolve(n) != node
  {
    assert NodeOk(nodes, n);
  }

  /** The same within the tree. */
  method FirstBlockInTree(gd: GlobalData, lock: RamLock, node: ObjNode) returns (data: DataBlock)
    requires StructureOk(gd) && node in gd.nodes && IsBlank(node) && node != gd.root && lock.key == node
    modifies node`kind, node`data, node`chain, lock`block, gd`spaceUsed
    ensures StructureOk(gd) && fresh(data) && fresh(data.bytes) && data.bytes.Length == MIN_BLKSIZE
    ensures data.next == null && data.size == FIRSTBUFFPOS - 1
    ensures node.kind == File && node.data == data && node.chain == [data] && lock.block == data
  {
    ghost var nodes := gd.nodes;
    ghost var counts: map<ObjNode, nat> := BlockCounts(nodes);
    data := FirstBlock(gd, lock, node);
    forall n {:trigger NodeOk(nodes, n)} | n in nodes
      ensures NodeOk(nodes, n)
    {
      assert old(NodeOk(nodes, n));
    }
    forall n {:trigger ParentOk(nodes, gd.root, n)} | n in nodes
      ensures ParentOk(nodes, gd.root, n)
    {
      assert old(ParentOk(nodes, gd.root, n));
    }
    SumChange(counts, node, 1);
    assert BlockCounts(nodes) == counts[node := 1];
  }

  /** The new node becomes an empty file, with the cursor of its handle at the start. */
  method BecomeFile(gd: GlobalData, lock: RamLock, node: ObjNode, ghost meaning: map<ObjNode, Attributes>)
    requires HandlerOk(gd) && node in gd.nodes && IsBlank(node) && node != gd.root && Means(gd.nodes - {node}, meaning)
    requires lock.key == node && lock in gd.locks && forall l :: l in gd.locks && l != lock ==> l.key != node
    modifies node`kind, node`data, node`chain, lock`block, gd`spaceUsed
    ensures HandlerOk(gd) && Means(gd.nodes - {node}, meaning)
    ensures lock.cpos == 0
    ensures node.kind == File && RamFile.FileOk(node) && node.content == []
  {
    ghost var nodes := gd.nodes;
    forall n | n in nodes && n != node
      ensures Resolve(n) != node
    {
      OnlyItself(nodes, gd.root, node, n);
    }
    var data := FirstBlockInTree(gd, lock, node);
    OneBlockOk(data);
    forall n {:trigger DataOk(n)} | n in nodes
      ensures DataOk(n)
    {
      assert old(DataOk(n));
    }
    forall n, m {:trigger ChainsApart(n, m)} | n in nodes && m in nodes
      ensures ChainsApart(n, m)
    {
      assert old(ChainsApart(n, m));
    }
  }

  /** rh_Open for a file that is to be created, with MODE_NEWFILE, or with MODE_READWRITE when
      there is none. An existing file of that name is replaced. */
  method OpenNew(gd: GlobalData, dptr: ObjNode, name: string, ghost meaning: map<ObjNode, Attributes>)
    returns (lock: RamLock?, ghost node: ObjNode?)
    requires HandlerOk(gd) && dptr in gd.nodes && dptr.kind == UserDir && Means(gd.nodes, meaning)
    modifies gd`spaceUsed, gd`nodes, gd`lockList, gd`locks, gd`fileErr, gd.locks`next
    modifies gd.nodes`firstChild, gd.nodes`kids, gd.nodes`next, gd.nodes`firstLink, gd.nodes`links, gd.nodes`target
    modifies gd.nodes`kind, gd.nodes`data, gd.nodes`size, gd.nodes`protection, gd.nodes`chain, gd.nodes`content
    ensures HandlerOk(gd) && Means(gd.nodes - {node}, meaning)
    ensures OnlyNameGone(old(gd.nodes), gd.nodes, dptr, name)
    ensures gd.nodes <= old(gd.nodes) + {node} && (node != null ==> fresh(node))
    ensures lock == null && gd.reliable ==> node == null
    ensures lock == null ==> gd.locks == old(gd.locks)
    ensures lock != null ==>
              fresh(lock) && gd.locks == [lock] + old(gd.locks) && lock.key == node && lock.access == EXCLUSIVE_LOCK
    ensures lock != null ==>
              node in gd.nodes && node.kind == File && node.content == [] && node.name == name && node.parent == dptr
    ensures lock != null ==> node.protection == old(Inherited(dptr, name)) && lock.cpos == 0
    ensures lock == null && gd.reliable ==> !RamRename.GoodName(name) || exists k :: InTheWay(gd, dptr, name, false, k)
    ensures lock == null && gd.reliable ==>
              if !RamRename.GoodName(name) then gd.fileErr == InvalidComponentName
              else forall k :: k in dptr.kids && SameName(name, k.name) ==>
                gd.fileErr == if Resolve(k).kind == UserDir then ObjectExists
                              else if k.kids != [] then DirectoryNotEmpty
                              else if k.protection.delete then DeleteProtected else ObjectInUse
    ensures lock != null ==> old(forall k :: k in dptr.kids ==> !InTheWay(gd, dptr, name, false, k))
  {
    hide StructureOk, FilesOk, RamLocks.TableOk, HandlesIn, Inherited, SameName, HandlerOk, InTheWay, Means;
    lock, node := null, null;
    var ok: bool :| gd.reliable ==> ok;  // AllocVec
    if !ok {
      assert gd.nodes - {node} == gd.nodes;
      return;
    }
    lock, node := CreateObject(gd, dptr, name, EXCLUSIVE_LOCK, false, meaning);
    if lock != null {
      BecomeFile(gd, lock, lock.key, meaning);
    }
  }

  // ---------------------------------------------------------------- rh_Makelink

  /** rh_CheckLock between other operations: the table is only reordered. */
  method CheckQuietly(gd: GlobalData, lock: RamLock) returns (key: ObjNode?)
    requires HandlerOk(gd)
    modifies gd`lockList, gd`locks, gd`fileErr, gd.locks`next
    ensures HandlerOk(gd) && forall l :: l in gd.locks <==> l in old(gd.locks)
    ensures key == if lock in gd.locks then lock.key else null
    ensures key == null ==> gd.fileErr == InvalidLock
    ensures key != null ==> key in gd.nodes && !key.kind.IsLink()
  {
    hide StructureOk, FilesOk, RamLocks.TableOk, Without, RamLocks.Runs.View, RamLocks.Runs.Apply;
    ghost var blocks, arrays := BlocksOf(gd.nodes), ArraysOf(gd.nodes);  // the frame of FilesOk
    key := RamLocks.CheckLock(gd, lock);
  }

  /** rh_Makelink within the tree: the blank node becomes the first link of `target`. */
  method LinkQuietly(gd: GlobalData, node: ObjNode, target: ObjNode, ghost others: seq<RamLock>,
                     ghost meaning: map<ObjNode, Attributes>)
    requires StructureOk(gd) && FilesOk(gd.nodes) && HandlesIn(others, gd.nodes) && Means(gd.nodes - {node}, meaning)
    requires node in gd.nodes && target in gd.nodes && node != target && node != gd.root && IsBlank(node)
    requires !target.kind.IsLink()
    requires forall l :: l in others ==> l.key != node
    modifies node`kind, node`firstLink, node`target, target`firstLink, target`links
    ensures StructureOk(gd) && FilesOk(gd.nodes) && HandlesIn(others, gd.nodes) && Means(gd.nodes - {node}, meaning)
    ensures node.kind.IsLink() && node.target == target && target.links == [node] + old(target.links)
    ensures forall n :: n in gd.nodes - {node} ==> Resolve(n) != node
  {
    forall n | n in gd.nodes && n != node
      ensures Resolve(n) != node
    {
      OnlyItself(gd.nodes, gd.root, node, n);
    }
    ChainLink(gd.nodes, gd.root, node, target);
    forall n {:trigger DataOk(n)} | n in gd.nodes
      ensures DataOk(n)
    {
      assert old(DataOk(n));
    }
  }

  /** The end of rh_FreeLock changes the protection of the new node alone. */
  method ClearQuietly(gd: GlobalData, lock: RamLock, ghost meaning: map<ObjNode, Attributes>)
    requires HandlerOk(gd) && Means(gd.nodes - {lock.key}, meaning)
    requires forall n :: n in gd.nodes - {lock.key} ==> Resolve(n) != lock.key
    modifies lock`modified, lock.key`protection
    ensures HandlerOk(gd) && Means(gd.nodes - {lock.key}, meaning)
  {
    RamLocks.ClearArchive(lock);
  }

  /** rh_FreeLock for the lock on a new node that no other name leads to. */
  method UnlockNew(gd: GlobalData, lock: RamLock, ghost others: seq<RamLock>, ghost meaning: map<ObjNode, Attributes>)
    requires StructureOk(gd) && FilesOk(gd.nodes) && RamLocks.TableOk(gd) && HandlesIn(others, gd.nodes)
    requires gd.locks == [lock] + others && Means(gd.nodes - {lock.key}, meaning)
    requires forall n :: n in gd.nodes - {lock.key} ==> Resolve(n) != lock.key
    modifies gd`lockList, gd`locks, gd`fileErr, lock`next, others`next, lock`modified, lock.key`protection
    ensures HandlerOk(gd) && Means(gd.nodes - {lock.key}, meaning) && gd.locks == others
  {
    hide StructureOk, FilesOk, HandlesIn, RamLocks.TableOk;
    ghost var blocks, arrays := BlocksOf(gd.nodes), ArraysOf(gd.nodes);  // the frame of FilesOk
    TempUnlock(gd, lock, others, meaning[lock.key := AttributesOf(Resolve(lock.key))]);
    ClearQuietly(gd, lock, meaning);
  }

  /** rh_Makelink from the new node on. */
  method LinkAndUnlock(gd: GlobalData, lock: RamLock, target: ObjNode, ghost others: seq<RamLock>,
                       ghost meaning: map<ObjNode, Attributes>)
    requires HandlerOk(gd) && gd.locks == [lock] + others && Means(gd.nodes - {lock.key}, meaning)
    requires lock.key in gd.nodes && target in gd.nodes && lock.key != target && lock.key != gd.root
    requires IsBlank(lock.key) && !target.kind.IsLink() && forall l :: l in others ==> l.key != lock.key
    modifies lock.key`kind, lock.key`firstLink, lock.key`target, lock.key`protection, target`firstLink, target`links
    modifies gd`lockList, gd`locks, gd`fileErr, lock`next, lock`modified, others`next
    ensures HandlerOk(gd) && Means(gd.nodes - {lock.key}, meaning) && gd.locks == others
    ensures lock.key.kind.IsLink() && lock.key.target == target && target.links == [lock.key] + old(target.links)
  {
    assert HandlesIn(others, gd.nodes);
    LinkQuietly(gd, lock.key, target, others, meaning);
    UnlockNew(gd, lock, others, meaning);
  }

  /** rh_LocateNode at the start of rh_Makelink. */
  method NameIsFree(gd: GlobalData, dptr: ObjNode, name: string) returns (free: bool)
    requires TreeOk(gd.nodes, gd.root) && dptr in gd.nodes && dptr.kind == UserDir
    modifies gd`fileErr
    ensures free <==> NameFreeIn(gd.nodes, dptr, name, null)
    ensures !free ==> gd.fileErr == ObjectExists && Named(dptr, name)
  {
    assert NodeOk(gd.nodes, dptr);
    var found, existing;
    ghost var entry;
    found, existing, entry := RamRename.FindEntry(gd, dptr, name, false);
    free := !found;
    if found {
      gd.fileErr := ObjectExists;
      assert entry in dptr.kids && SameName(name, entry.name);
      assert ParentOk(gd.nodes, gd.root, entry) && NodeOk(gd.nodes, gd.root);
    } else {
      forall k | k in gd.nodes && k.parent == dptr
        ensures !SameName(name, k.name)
      {
        assert ParentOk(gd.nodes, gd.root, k);
      }
    }
  }

  /** The checks of rh_Makelink. */
  method LinkChecks(gd: GlobalData, dptr: ObjNode, name: string, arg: RamLock) returns (ok: bool)
    requires HandlerOk(gd) && dptr in gd.nodes && dptr.kind == UserDir
    modifies gd`lockList, gd`locks, gd`fileErr, gd.locks`next
    ensures HandlerOk(gd) && forall l: object :: l in gd.locks <==> l in old(gd.locks)
    ensures ok <==> name != "" && arg in old(gd.locks) && NameFreeIn(gd.nodes, dptr, name, null)
    ensures !ok ==> name == "" || arg !in old(gd.locks) || Named(dptr, name)
    ensures !ok ==> gd.fileErr == if arg !in old(gd.locks) then InvalidLock else ObjectExists
  {
    hide FilesOk, HandlesIn, RamLocks.TableOk;
    ghost var blocks, arrays := BlocksOf(gd.nodes), ArraysOf(gd.nodes);  // the frame of FilesOk
    var target := CheckQuietly(gd, arg);
    ok := false;
    if target == null {
      return;
    }
    if name == "" {
      gd.fileErr := ObjectExists;
      return;
    }
    ok := NameIsFree(gd, dptr, name);
  }

  /** rh_CreateObject for a name that is free: nothing goes. */
  method CreateFree(gd: GlobalData, dptr: ObjNode, name: string, ghost meaning: map<ObjNode, Attributes>)
    returns (lock: RamLock?, ghost node: ObjNode?)
    requires HandlerOk(gd) && dptr in gd.nodes && dptr.kind == UserDir && Means(gd.nodes, meaning)
    requires NameFreeIn(gd.nodes, dptr, name, null)
    modifies gd`spaceUsed, gd`nodes, gd`lockList, gd`locks, gd`fileErr, gd.locks`next
    modifies gd.nodes`firstChild, gd.nodes`kids, gd.nodes`next, gd.nodes`firstLink, gd.nodes`links, gd.nodes`target
    modifies gd.nodes`kind, gd.nodes`data, gd.nodes`size, gd.nodes`protection, gd.nodes`chain, gd.nodes`content
    ensures HandlerOk(gd) && Means(old(gd.nodes), meaning) && gd.nodes - {node} == old(gd.nodes)
    ensures lock == null ==> gd.locks == old(gd.locks)
    ensures node != null ==> fresh(node)
    ensures lock != null ==> fresh(lock) && gd.locks == [lock] + old(gd.locks)
    ensures lock != null ==>
              lock.key == node && node in gd.nodes && IsBlank(node) && node.name == name && node.parent == dptr
    ensures lock != null ==> RamRename.GoodName(name) && node != gd.root && forall l :: l in old(gd.locks) ==>
              l.key != node
    ensures lock == null && gd.reliable ==> !RamRename.GoodName(name) || Named(dptr, name)
    ensures lock == null && gd.reliable ==> node == null
    ensures lock == null && gd.reliable && !RamRename.GoodName(name) ==> gd.fileErr == InvalidComponentName
  {
    hide StructureOk, FilesOk, HandlesIn, RamLocks.TableOk, Means, Inherited, Deletable;
    ghost var nodes := gd.nodes;
    lock, node := CreateObject(gd, dptr, name, EXCLUSIVE_LOCK, false, meaning);
    assert gd.nodes - {node} == nodes;
  }

  /** rh_Makelink once the name is known to be free. */
  method LinkTo(gd: GlobalData, dptr: ObjNode, name: string, arg: RamLock, ghost meaning: map<ObjNode, Attributes>)
    returns (ok: bool, ghost node: ObjNode?)
    requires HandlerOk(gd) && dptr in gd.nodes && dptr.kind == UserDir && Means(gd.nodes, meaning)
    requires arg in gd.locks && NameFreeIn(gd.nodes, dptr, name, null)
    modifies gd`spaceUsed, gd`nodes, gd`lockList, gd`locks, gd`fileErr, gd.locks`next
    modifies gd.nodes`firstChild, gd.nodes`kids, gd.nodes`next, gd.nodes`firstLink, gd.nodes`links, gd.nodes`target
    modifies gd.nodes`kind, gd.nodes`data, gd.nodes`size, gd.nodes`protection, gd.nodes`chain, gd.nodes`content
    ensures HandlerOk(gd) && Means(old(gd.nodes), meaning) && gd.locks == old(gd.locks)
    ensures gd.nodes - {node} == old(gd.nodes) && (node != null ==> fresh(node))
    ensures ok ==> RamRename.GoodName(name) && node in gd.nodes && node.name == name && node.parent == dptr
    ensures ok ==> node.kind.IsLink() && Resolve(node) == arg.key
    ensures !ok && gd.reliable ==> !RamRename.GoodName(name) || Named(dptr, name)
    ensures !ok && gd.reliable ==> node == null
    ensures !ok && gd.reliable && !RamRename.GoodName(name) ==> gd.fileErr == InvalidComponentName
  {
    hide StructureOk, FilesOk, RamLocks.TableOk, Means;
    ok := false;
    ghost var others := gd.locks;
    var lock;
    lock, node := CreateFree(gd, dptr, name, meaning);
    if lock == null {
      return;
    }
    assert arg in gd.locks;
    LinkAndUnlock(gd, lock, arg.key, others, meaning);
    ok := true;
  }

  /** rh_Makelink: a free name becomes a hard link, the first in the chain of the node that
      `arg` locks; whatever happens, every older name stays and leads to what it led to. */
  method Makelink(gd: GlobalData, dptr: ObjNode, name: string, arg: RamLock, ghost meaning: map<ObjNode, Attributes>)
    returns (ok: bool, ghost node: ObjNode?)
    requires HandlerOk(gd) && dptr in gd.nodes && dptr.kind == UserDir && Means(gd.nodes, meaning)
    modifies gd`spaceUsed, gd`nodes, gd`lockList, gd`locks, gd`fileErr, gd.locks`next
    modifies gd.nodes`firstChild, gd.nodes`kids, gd.nodes`next, gd.nodes`firstLink, gd.nodes`links, gd.nodes`target
    modifies gd.nodes`kind, gd.nodes`data, gd.nodes`size, gd.nodes`protection, gd.nodes`chain, gd.nodes`content
    ensures HandlerOk(gd) && Means(old(gd.nodes), meaning) && forall l :: l in gd.locks <==> l in old(gd.locks)
    ensures gd.nodes - {node} == old(gd.nodes) && (node != null ==> fresh(node))
    ensures ok ==> old(arg in gd.locks) && RamRename.GoodName(name) && old(NameFreeIn(gd.nodes, dptr, name, null))
    ensures ok ==> node in gd.nodes && node.name == name && node.parent == dptr
    ensures ok ==> node.kind.IsLink() && Resolve(node) == arg.key
    ensures !ok && gd.reliable ==> !RamRename.GoodName(name) || arg !in old(gd.locks) || Named(dptr, name)
    ensures !ok && gd.reliable ==> node == null
    // the errors
    ensures arg !in old(gd.locks) ==> !ok && gd.fileErr == InvalidLock
    ensures arg in old(gd.locks) && (name == "" || !old(NameFreeIn(gd.nodes, dptr, name, null))) ==>
              !ok && gd.fileErr == ObjectExists
    ensures !ok && gd.reliable && arg in old(gd.locks) && name != "" && old(NameFreeIn(gd.nodes, dptr, name, null))
            && !RamRename.GoodName(name) ==>
              gd.fileErr == InvalidComponentName
  {
    hide StructureOk, FilesOk, HandlesIn, RamLocks.TableOk;
    ok, node := false, null;
    ghost var locks := gd.locks;
    ok := LinkChecks(gd, dptr, name, arg);
    assert forall i :: 0 <= i < |gd.locks| ==> gd.locks[i] in locks;
    if !ok {
      return;
    }
    ok, node := LinkTo(gd, dptr, name, arg, meaning);
  }
}
