/** rh_DeleteObject of the RAM handler: what a deletion takes away, and what every other
    name keeps. */
module RamDelete {
  import opened Machine
  import opened RamTypes
  import opened RamTree
  import opened RamSpace
  import RamFile
  import RamLocks
  import RamRename

  /** Files own a consistent chain of at least one block; nothing else has data. */
  ghost predicate DataIs(kind: Kind, data: DataBlock?, chain: seq<DataBlock>, content: seq<byte>, size: int)
    reads chain, set b | b in chain :: b.bytes
  {
    if kind.File? then
      RamFile.ChainOk(data, chain, content) && RamFile.Tidy(chain) && size == |content| && chain != []
    else
      chain == [] && data == null
  }

  ghost predicate DataOk(n: ObjNode)
    reads n`kind, n`data, n`chain, n`content, n`size, n.chain, set b | b in n.chain :: b.bytes
  {
    DataIs(n.kind, n.data, n.chain, n.content, n.size)
  }

  /** No block belongs to two nodes. */
  ghost predicate ChainsApart(n: ObjNode, m: ObjNode)
    reads n`chain, m`chain
  {
    n != m ==> forall b, c {:trigger RamFile.Apart(b, c)} :: b in n.chain && c in m.chain ==> RamFile.Apart(b, c)
  }

  ghost function BlocksOf(nodes: set<ObjNode>): (blocks: set<DataBlock>)
    reads nodes`chain
    ensures forall n, b :: n in nodes && b in n.chain ==> b in blocks
  {
    set n, b | n in nodes && b in n.chain :: b
  }

  ghost function ArraysOf(nodes: set<ObjNode>): (arrays: set<array<byte>>)
    reads nodes`chain
    ensures forall n, b :: n in nodes && b in n.chain ==> b.bytes in arrays
  {
    set b | b in BlocksOf(nodes) :: b.bytes
  }

  ghost predicate FilesOk(nodes: set<ObjNode>)
    reads nodes`kind, nodes`data, nodes`chain, nodes`content, nodes`size, BlocksOf(nodes), ArraysOf(nodes)
  {
    && (forall n {:trigger DataOk(n)} :: n in nodes ==> DataOk(n))
    && (forall n, m {:trigger ChainsApart(n, m)} :: n in nodes && m in nodes ==> ChainsApart(n, m))
  }

  /** The state of the file system apart from the contents of the blocks. */
  ghost predicate StructureOk(gd: GlobalData)
    reads gd`spaceUsed, gd`nodes
    reads gd.nodes`parent, gd.nodes`rank, gd.nodes`kids, gd.nodes`firstChild, gd.nodes`kind, gd.nodes`next
    reads gd.nodes`name, gd.nodes`links, gd.nodes`data, gd.nodes`chain, gd.nodes`target, gd.nodes`firstLink
  {
    TreeOk(gd.nodes, gd.root) && SpaceOk(gd)
  }

  /** Locks are on live nodes, never on the link itself, and their cursors are where they say. */
  ghost predicate HandlesIn(locks: seq<RamLock>, nodes: set<ObjNode>)
    reads nodes`kind, nodes`chain, nodes`content, locks`block, locks`offset, locks`cpos, locks`index
  {
    forall l :: l in locks ==> l.key in nodes && !l.key.kind.IsLink() && RamFile.CursorOk(l, l.key)
  }

  /** One more lock on a live node, with its cursor in place. */
  lemma HandlesMore(locks: seq<RamLock>, nodes: set<ObjNode>, lock: RamLock)
    requires HandlesIn(locks, nodes) && lock.key in nodes && !lock.key.kind.IsLink() && RamFile.CursorOk(lock, lock.key)
    ensures HandlesIn([lock] + locks, nodes)
  {
  }

  // ---------------------------------------------------------------- promotion and removal

  /** The promotion moves the blocks with the data, so the space in use stays the same. */
  method PromoteInPlace(gd: GlobalData, node: ObjNode)
    requires StructureOk(gd) && node in gd.nodes && !node.kind.IsLink() && node.kids == [] && node.firstLink != null
    modifies node`data, node`chain, node`content, node`firstLink, node`links, node.links`target
    modifies node.firstLink`kind, node.firstLink`data, node.firstLink`size, node.firstLink`protection
    modifies node.firstLink`chain, node.firstLink`content, node.firstLink`links
    ensures StructureOk(gd) && node.links == [] && node.firstLink == null && node.data == null && node.chain == []
    ensures AttributesOf(old(node.firstLink)) == old(AttributesOf(node)) && old(node.firstLink.kind.IsLink())
    ensures forall n :: n in gd.nodes && n != node ==> AttributesOf(Resolve(n)) == old(AttributesOf(Resolve(n)))
  {
    assert NodeOk(gd.nodes, node);
    var first: ObjNode := node.firstLink;
    assert first in node.links && NodeOk(gd.nodes, first);
    ghost var counts: map<ObjNode, nat> := BlockCounts(gd.nodes);
    ghost var blocks := |node.chain|;
    Promote(gd.nodes, gd.root, node);
    SumMove(counts, node, first);
    assert BlockCounts(gd.nodes) == counts[first := blocks][node := 0];
  }

  /** rh_RemoveNode on the live nodes. */
  method RemoveLive(gd: GlobalData, node: ObjNode)
    requires TreeOk(gd.nodes, gd.root) && node in gd.nodes && node != gd.root && node.kids == [] && node.links == []
    modifies gd`nodes, gd.nodes`firstChild, gd.nodes`kids, gd.nodes`next, gd.nodes`firstLink, gd.nodes`links
    ensures TreeOk(gd.nodes, gd.root) && gd.nodes == old(gd.nodes) - {node}
  {
    ghost var nodes := gd.nodes;
    assert ParentOk(nodes, gd.root, node) && NodeOk(nodes, node);
    assert NodeOk(nodes, node.parent) && (node.kind.IsLink() ==> NodeOk(nodes, node.target));
    ghost var _, _ := RemoveNode(nodes, gd.root, node);
    gd.nodes := nodes - {node};
  }

  /** The freeing around rh_RemoveNode, for a node that nothing depends on any more. */
  method FreeNode(gd: GlobalData, node: ObjNode)
    requires StructureOk(gd) && node in gd.nodes && node != gd.root && node.kids == [] && node.links == []
    requires !node.kind.IsLink() ==>
               RamFile.BlocksOk(node.chain) && node.data == if node.chain == [] then null else node.chain[0]
    modifies gd`spaceUsed, gd`nodes
    modifies gd.nodes`firstChild, gd.nodes`kids, gd.nodes`next, gd.nodes`firstLink, gd.nodes`links
    ensures StructureOk(gd) && gd.nodes == old(gd.nodes) - {node}
  {
    assert NodeOk(gd.nodes, node);
    ghost var counts: map<ObjNode, nat> := BlockCounts(gd.nodes);
    if !node.kind.IsLink() {
      var freed := RamFile.FreeList(node.data, node.chain, 0);
      gd.spaceUsed := gd.spaceUsed - freed;
    }
    gd.spaceUsed := gd.spaceUsed - 1;
    RemoveLive(gd, node);
    SumWithout(counts, node);
    assert BlockCounts(gd.nodes) == counts - {node};
  }

  /** The promotion, with the data it hands over. */
  method PromoteData(gd: GlobalData, node: ObjNode)
    requires StructureOk(gd) && FilesOk(gd.nodes) && node in gd.nodes && !node.kind.IsLink() && node.kids == []
    requires node.firstLink != null
    modifies node`data, node`chain, node`content, node`firstLink, node`links, node.links`target
    modifies node.firstLink`kind, node.firstLink`data, node.firstLink`size, node.firstLink`protection
    modifies node.firstLink`chain, node.firstLink`content, node.firstLink`links
    ensures StructureOk(gd) && node.links == [] && node.firstLink == null && node.data == null && node.chain == []
    ensures FilesOk(gd.nodes - {node})
    ensures old(node.firstLink.kind.IsLink()) && !old(node.firstLink).kind.IsLink()
    ensures forall n :: n in gd.nodes && n != node ==> AttributesOf(Resolve(n)) == old(AttributesOf(Resolve(n)))
  {
    ghost var nodes := gd.nodes;
    ghost var first: ObjNode := node.firstLink;
    assert NodeOk(nodes, node) && DataOk(node);
    assert first in node.links && NodeOk(nodes, first);
    PromoteInPlace(gd, node);
    forall n {:trigger DataOk(n)} | n in nodes - {node}
      ensures DataOk(n)
    {
      assert old(DataOk(if n == first then node else n));
    }
    forall n, m {:trigger ChainsApart(n, m)} | n in nodes - {node} && m in nodes - {node}
      ensures ChainsApart(n, m)
    {
      assert old(ChainsApart(if n == first then node else n, if m == first then node else m));
    }
  }

  lemma FilesLess(nodes: set<ObjNode>, node: ObjNode)
    requires FilesOk(nodes)
    ensures FilesOk(nodes - {node})
  {
  }

  /** The first half of it: a target that has links hands itself over to the first of them. */
  method HandOver(gd: GlobalData, node: ObjNode, ghost meaning: map<ObjNode, Attributes>)
    requires StructureOk(gd) && FilesOk(gd.nodes) && node in gd.nodes && node.kids == []
    requires Means(gd.nodes, meaning)
    modifies gd.nodes`firstLink, gd.nodes`links, gd.nodes`target
    modifies gd.nodes`kind, gd.nodes`data, gd.nodes`size, gd.nodes`protection, gd.nodes`chain, gd.nodes`content
    ensures StructureOk(gd) && FilesOk(gd.nodes - {node}) && node.links == [] && node.kind == old(node.kind)
    ensures !node.kind.IsLink() ==>
              RamFile.BlocksOk(node.chain) && node.data == if node.chain == [] then null else node.chain[0]
    ensures Means(gd.nodes - {node}, meaning)
    ensures forall n :: n in gd.nodes && n.kind != old(n.kind) ==> old(n.kind.IsLink()) && !n.kind.IsLink()
  {
    assert NodeOk(gd.nodes, node) && DataOk(node);
    if node.firstLink != null && (node.kind.File? || node.kind.UserDir?) {
      assert node.firstLink in node.links && NodeOk(gd.nodes, node.firstLink);
      PromoteData(gd, node);
    } else {
      FilesLess(gd.nodes, node);
    }
  }

  /** Freeing a node that nothing depends on changes no file and no meaning. */
  method FreeQuietly(gd: GlobalData, node: ObjNode, ghost meaning: map<ObjNode, Attributes>)
    requires StructureOk(gd) && node in gd.nodes && node != gd.root && node.kids == [] && node.links == []
    requires !node.kind.IsLink() ==>
               RamFile.BlocksOk(node.chain) && node.data == if node.chain == [] then null else node.chain[0]
    requires FilesOk(gd.nodes - {node}) && Means(gd.nodes - {node}, meaning)
    modifies gd`spaceUsed, gd`nodes
    modifies gd.nodes`firstChild, gd.nodes`kids, gd.nodes`next, gd.nodes`firstLink, gd.nodes`links
    ensures StructureOk(gd) && FilesOk(gd.nodes) && Means(gd.nodes, meaning) && gd.nodes == old(gd.nodes) - {node}
  {
    hide StructureOk, FilesOk;
    ghost var rest := gd.nodes - {node};
    ghost var blocks, arrays := BlocksOf(rest), ArraysOf(rest);  // the frame of FilesOk
    FreeNode(gd, node);
    assert gd.nodes == rest;
  }

  /** The end of rh_DeleteObject, with the node locked against everyone else. */
  method Dispose(gd: GlobalData, node: ObjNode, ghost meaning: map<ObjNode, Attributes>)
    requires StructureOk(gd) && FilesOk(gd.nodes) && node in gd.nodes && node != gd.root && node.kids == []
    requires Means(gd.nodes, meaning)
    modifies gd`spaceUsed, gd`nodes
    modifies gd.nodes`firstChild, gd.nodes`kids, gd.nodes`next, gd.nodes`firstLink, gd.nodes`links, gd.nodes`target
    modifies gd.nodes`kind, gd.nodes`data, gd.nodes`size, gd.nodes`protection, gd.nodes`chain, gd.nodes`content
    ensures StructureOk(gd) && FilesOk(gd.nodes) && gd.nodes == old(gd.nodes) - {node}
    ensures Means(gd.nodes, meaning)
    ensures forall n :: n in gd.nodes && n.kind != old(n.kind) ==> old(n.kind.IsLink()) && !n.kind.IsLink()
  {
    HandOver(gd, node, meaning);
    FreeQuietly(gd, node, meaning);
  }

  // ---------------------------------------------------------------- rh_DeleteObject

  /** The name means `k` and nothing forbids its deletion, locks apart. */
  ghost predicate Deletable(d: ObjNode, name: string, k: ObjNode)
    reads d`kids, k`name, k`kids, k`protection
  {
    RamRename.Finds(d, name, k) && k.kids == [] && !k.protection.delete
  }

  ghost predicate Locked(locks: seq<RamLock>, n: ObjNode) {
    exists l :: l in locks && l.key == n
  }

  /** The checks of rh_DeleteObject that come before its lock. */
  method DeleteChecks(gd: GlobalData, dptr: ObjNode, name: string) returns (node: ObjNode?)
    requires StructureOk(gd) && dptr in gd.nodes && (name == "" ==> dptr != gd.root)
    modifies gd`fileErr
    ensures node != null ==> node in gd.nodes && node != gd.root && (name != "" ==> dptr.kind == UserDir)
    ensures node != null ==> Deletable(dptr, name, node) && gd.fileErr == old(gd.fileErr)
    ensures dptr.kind == UserDir || name == "" ==> forall k :: Deletable(dptr, name, k) ==> k == node
    ensures node == null && dptr.kind == UserDir ==>
              (gd.fileErr == ObjectNotFound <==> name != "" && forall k :: k in dptr.kids ==> !SameName(name, k.name))
    ensures node == null && dptr.kind != UserDir && name != "" ==> gd.fileErr == ObjectWrongType
    ensures node == null && (dptr.kind == UserDir || name == "") ==>
              forall k :: RamRename.Finds(dptr, name, k) ==>
                && (k.kids != [] || k.protection.delete)
                && gd.fileErr == if k.kids != [] then DirectoryNotEmpty else DeleteProtected
    ensures node != null ==> forall k :: RamRename.Finds(dptr, name, k) ==> k == node
  {
    hide StructureOk;
    InTree(gd, dptr);
    var found, cur;
    ghost var entry;
    found, cur, entry := RamRename.FindNode(gd, dptr, name, false);
    if !found {
      return null;
    }
    if name != "" {
      RamRename.OnlyOne(dptr, cur, name);
      NotItsOwnChild(gd, dptr, cur);
    }
    InTree(gd, cur);
    if cur.kind == UserDir && cur.firstChild != null {
      gd.fileErr := DirectoryNotEmpty;
      return null;
    }
    if cur.protection.delete {
      gd.fileErr := DeleteProtected;
      return null;
    }
    return cur;
  }

  lemma InTree(gd: GlobalData, n: ObjNode)
    requires StructureOk(gd) && n in gd.nodes
    ensures NodeOk(gd.nodes, n)
  {
  }

  lemma NotItsOwnChild(gd: GlobalData, d: ObjNode, k: ObjNode)
    requires StructureOk(gd) && d in gd.nodes && k in d.kids
    ensures k != d && k in gd.nodes && k != gd.root && k.parent == d
  {
    assert NodeOk(gd.nodes, d) && NodeOk(gd.nodes, gd.root);
    assert ParentOk(gd.nodes, gd.root, k) && ParentOk(gd.nodes, gd.root, gd.root);
  }

  /** The invariant of the handler between two packets. */
  ghost predicate HandlerOk(gd: GlobalData)
    reads gd`spaceUsed, gd`nodes, gd`locks, gd`lockList, gd.nodes, gd.locks, BlocksOf(gd.nodes), ArraysOf(gd.nodes)
  {
    StructureOk(gd) && FilesOk(gd.nodes) && RamLocks.TableOk(gd) && HandlesIn(gd.locks, gd.nodes)
  }

  /** What rh_DeleteObject does while it holds the lock; `others` are the locks of everyone else. */
  method LockedDelete(gd: GlobalData, node: ObjNode, ghost others: seq<RamLock>,
                      ghost meaning: map<ObjNode, Attributes>)
    requires StructureOk(gd) && FilesOk(gd.nodes) && node in gd.nodes && node != gd.root && node.kids == []
    requires HandlesIn(others, gd.nodes) && forall l :: l in others ==> l.key != node
    requires Means(gd.nodes, meaning)
    modifies gd`spaceUsed, gd`nodes
    modifies gd.nodes`firstChild, gd.nodes`kids, gd.nodes`next, gd.nodes`firstLink, gd.nodes`links, gd.nodes`target
    modifies gd.nodes`kind, gd.nodes`data, gd.nodes`size, gd.nodes`protection, gd.nodes`chain, gd.nodes`content
    ensures StructureOk(gd) && FilesOk(gd.nodes) && HandlesIn(others, gd.nodes) && gd.nodes == old(gd.nodes) - {node}
    ensures Means(gd.nodes, meaning)
    ensures forall n :: n in gd.nodes && n.kind != old(n.kind) ==> old(n.kind.IsLink()) && !n.kind.IsLink()
  {
    Dispose(gd, node, meaning);
    forall l | l in others
      ensures l.key in gd.nodes && !l.key.kind.IsLink() && RamFile.CursorOk(l, l.key)
    {
      assert old(RamFile.CursorOk(l, l.key));
      assert old(Resolve(l.key)) == l.key && Resolve(l.key) == l.key;
    }
  }

  /** rh_GetLock for the use of an operation itself. */
  method TempLock(gd: GlobalData, node: ObjNode, access: int, ghost meaning: map<ObjNode, Attributes>)
    returns (lock: RamLock?)
    requires HandlerOk(gd) && Means(gd.nodes, meaning)
    modifies gd`lockList, gd`locks, gd`fileErr
    ensures StructureOk(gd) && FilesOk(gd.nodes) && RamLocks.TableOk(gd) && HandlesIn(old(gd.locks), gd.nodes)
    ensures Means(gd.nodes, meaning)
    ensures lock == null <==> gd.locks == old(gd.locks)
    ensures lock == null ==>
              gd.fileErr != ObjectNotFound && (!gd.reliable || old(RamLocks.Conflicts(gd.locks, node, access)))
    ensures lock == null ==>
              gd.fileErr == if old(RamLocks.Conflicts(gd.locks, node, access)) then ObjectInUse else NoFreeStore
    ensures lock != null ==> fresh(lock) && lock.key == node && lock.access == access && !lock.modified
    ensures lock != null ==> gd.locks == [lock] + old(gd.locks) && gd.fileErr == old(gd.fileErr)
    ensures lock != null && access == EXCLUSIVE_LOCK ==> forall l :: l in old(gd.locks) ==> l.key != node
  {
    hide StructureOk, FilesOk, HandlesIn, RamLocks.TableOk, RamLocks.Runs.View, RamLocks.Runs.Apply;
    ghost var blocks, arrays := BlocksOf(gd.nodes), ArraysOf(gd.nodes);  // the frame of FilesOk
    lock := RamLocks.GetLock(gd, node, access);
    assert lock != null ==> |gd.locks| != |old(gd.locks)|;
  }

  method TempUnlock(gd: GlobalData, lock: RamLock, ghost others: seq<RamLock>, ghost meaning: map<ObjNode, Attributes>)
    requires Means(gd.nodes, meaning)
    requires StructureOk(gd) && FilesOk(gd.nodes) && RamLocks.TableOk(gd) && HandlesIn(others, gd.nodes)
    requires gd.locks == [lock] + others
    modifies gd`lockList, gd`locks, gd`fileErr, lock`next, others`next
    ensures HandlerOk(gd) && Means(gd.nodes, meaning) && gd.locks == others && gd.fileErr == old(gd.fileErr)
  {
    hide StructureOk, FilesOk, HandlesIn, RamLocks.TableOk;
    ghost var blocks, arrays := BlocksOf(gd.nodes), ArraysOf(gd.nodes);  // the frame of FilesOk
    RamLocks.FreeTemp(gd, lock, others);
  }

  /** The locking around it. */
  method DeleteNode(gd: GlobalData, node: ObjNode, ghost meaning: map<ObjNode, Attributes>) returns (ok: bool)
    requires HandlerOk(gd) && node in gd.nodes && node != gd.root && node.kids == []
    requires Means(gd.nodes, meaning)
    modifies gd`spaceUsed, gd`nodes, gd`lockList, gd`locks, gd`fileErr, gd.locks`next
    modifies gd.nodes`firstChild, gd.nodes`kids, gd.nodes`next, gd.nodes`firstLink, gd.nodes`links, gd.nodes`target
    modifies gd.nodes`kind, gd.nodes`data, gd.nodes`size, gd.nodes`protection, gd.nodes`chain, gd.nodes`content
    ensures HandlerOk(gd) && gd.locks == old(gd.locks)
    ensures gd.nodes == if ok then old(gd.nodes) - {node} else old(gd.nodes)
    ensures Means(gd.nodes, meaning)
    ensures forall n :: n in gd.nodes && n.kind != old(n.kind) ==> old(n.kind.IsLink()) && !n.kind.IsLink()
    ensures !ok ==> gd.spaceUsed == old(gd.spaceUsed) && gd.fileErr != ObjectNotFound && unchanged(gd.nodes)
    ensures if ok then !Locked(gd.locks, node) else !gd.reliable || Locked(gd.locks, node)
    ensures !ok ==> gd.fileErr == if Locked(gd.locks, node) then ObjectInUse else NoFreeStore
  {
    hide StructureOk, FilesOk, HandlesIn, RamLocks.TableOk;
    ghost var locks0 := gd.locks;
    var lock := TempLock(gd, node, EXCLUSIVE_LOCK, meaning);
    if lock == null {
      return false;
    }
    LockedDelete(gd, node, locks0, meaning);
    TempUnlock(gd, lock, locks0, meaning);
    return true;
  }

  /** No node below `d` but `except` has the name. */
  ghost predicate NameFreeIn(nodes: set<ObjNode>, d: ObjNode, name: string, except: ObjNode?)
    reads nodes`parent, nodes`name
  {
    forall k :: k in nodes && k.parent == d && k != except ==> !SameName(name, k.name)
  }

  lemma OthersDiffer(gd: GlobalData, d: ObjNode, name: string, k: ObjNode)
    requires StructureOk(gd) && d in gd.nodes && RamRename.Names(d, name, k)
    ensures NameFreeIn(gd.nodes, d, name, k)
  {
    assert NodeOk(gd.nodes, d);
    RamRename.OnlyOne(d, k, name);
    forall m | m in gd.nodes && m.parent == d && m != k
      ensures !SameName(name, m.name)
    {
      assert ParentOk(gd.nodes, gd.root, m);
    }
  }

  /** The checks, seen from the whole handler. */
  method ChecksQuietly(gd: GlobalData, dptr: ObjNode, name: string, ghost meaning: map<ObjNode, Attributes>)
    returns (node: ObjNode?)
    requires HandlerOk(gd) && Means(gd.nodes, meaning) && dptr in gd.nodes && (name == "" ==> dptr != gd.root)
    modifies gd`fileErr
    ensures HandlerOk(gd) && Means(gd.nodes, meaning)
    ensures node != null ==> node in gd.nodes && node != gd.root && Deletable(dptr, name, node)
    ensures node != null && name != "" ==>
              dptr.kind == UserDir && node != dptr && node.parent == dptr && NameFreeIn(gd.nodes, dptr, name, node)
    ensures dptr.kind == UserDir || name == "" ==> forall k :: Deletable(dptr, name, k) ==> k == node
    ensures node == null && dptr.kind == UserDir ==>
              (gd.fileErr == ObjectNotFound <==> name != "" && forall k :: k in dptr.kids ==> !SameName(name, k.name))
    ensures node == null && dptr.kind != UserDir && name != "" ==> gd.fileErr == ObjectWrongType
    ensures node == null && (dptr.kind == UserDir || name == "") ==>
              forall k :: RamRename.Finds(dptr, name, k) ==>
                && (k.kids != [] || k.protection.delete)
                && gd.fileErr == if k.kids != [] then DirectoryNotEmpty else DeleteProtected
    ensures node != null ==> forall k :: RamRename.Finds(dptr, name, k) ==> k == node
  {
    hide StructureOk, FilesOk, HandlesIn, RamLocks.TableOk, Fold;
    ghost var blocks, arrays := BlocksOf(gd.nodes), ArraysOf(gd.nodes);  // the frame of FilesOk
    node := DeleteChecks(gd, dptr, name);
    if node != null && name != "" {
      OthersDiffer(gd, dptr, name, node);
      NotItsOwnChild(gd, dptr, node);
    }
  }

  /** rh_DeleteObject: what the name means goes, and every other name still leads to the same
      type, size, protection and data. A refusal changes nothing. */
  method DeleteObject(gd: GlobalData, dptr: ObjNode, name: string, ghost meaning: map<ObjNode, Attributes>)
    returns (ok: bool, ghost node: ObjNode?)
    requires HandlerOk(gd) && dptr in gd.nodes && Means(gd.nodes, meaning) && (name == "" ==> dptr != gd.root)
    modifies gd`spaceUsed, gd`nodes, gd`lockList, gd`locks, gd`fileErr, gd.locks`next
    modifies gd.nodes`firstChild, gd.nodes`kids, gd.nodes`next, gd.nodes`firstLink, gd.nodes`links, gd.nodes`target
    modifies gd.nodes`kind, gd.nodes`data, gd.nodes`size, gd.nodes`protection, gd.nodes`chain, gd.nodes`content
    ensures HandlerOk(gd) && Means(gd.nodes, meaning) && gd.locks == old(gd.locks)
    ensures forall n :: n in gd.nodes && n in old(gd.nodes) && n.kind != old(n.kind) ==>
              old(n.kind.IsLink()) && !n.kind.IsLink()
    ensures !ok ==>
              node == null && gd.nodes == old(gd.nodes) && unchanged(gd.nodes) && gd.spaceUsed == old(gd.spaceUsed)
    ensures ok ==> node != null && node in old(gd.nodes) && gd.nodes == old(gd.nodes) - {node}
    ensures ok ==> old(Deletable(dptr, name, node)) && !Locked(gd.locks, node)
    ensures ok && name != "" ==> node != dptr && node.parent == dptr && NameFreeIn(gd.nodes, dptr, name, null)
    ensures !ok && gd.reliable && (dptr.kind == UserDir || name == "") ==>
              forall k :: Deletable(dptr, name, k) ==> Locked(gd.locks, k)
    ensures !ok && dptr.kind == UserDir ==>
              (gd.fileErr == ObjectNotFound <==> name != "" && forall k :: k in dptr.kids ==> !SameName(name, k.name))
    // the other errors
    ensures !ok && dptr.kind != UserDir && name != "" ==> gd.fileErr == ObjectWrongType
    ensures !ok && (dptr.kind == UserDir || name == "") ==>
              forall k :: RamRename.Finds(dptr, name, k) ==>
                gd.fileErr == if k.kids != [] then DirectoryNotEmpty
                              else if k.protection.delete then DeleteProtected
                              else if Locked(gd.locks, k) then ObjectInUse else NoFreeStore
  {
    hide StructureOk, FilesOk, HandlesIn, RamLocks.TableOk, Means, Fold;
    ok, node := false, null;
    var entry := ChecksQuietly(gd, dptr, name, meaning);
    if entry == null {
      return;
    }
    ok := DeleteNode(gd, entry, meaning);
    assert !ok ==> RamRename.Finds(dptr, name, entry);
    node := if ok then entry else null;
  }
}
