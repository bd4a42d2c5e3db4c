/** rh_FindEntry, rh_CheckName and rh_Rename of the RAM handler, and why no rename can make
    a directory its own ancestor. */
module RamRename {
  import opened Lists
  import opened RamTypes
  import opened RamTree
  import RamLocks

  // ---------------------------------------------------------------- ancestors

  /** `n` is `a` or lies below it. */
  ghost predicate Below(nodes: set<ObjNode>, n: ObjNode, a: ObjNode)
    requires n in nodes
    reads nodes`parent, nodes`rank
    decreases n.rank
  {
    n == a || (n.parent != null && n.parent in nodes && n.parent.rank < n.rank && Below(nodes, n.parent, a))
  }

  /** The nodes on the way from `n` to the root. */
  ghost function Walk(nodes: set<ObjNode>, root: ObjNode, n: ObjNode): (path: seq<ObjNode>)
    requires TreeOk(nodes, root) && n in nodes
    reads nodes
    ensures path != [] && path[0] == n && path[|path| - 1] == root && |path| <= n.rank + 1
    ensures forall i :: 0 <= i < |path| ==> path[i] in nodes && (i + 1 < |path| ==> path[i].parent == path[i + 1])
    decreases n.rank
  {
    assert ParentOk(nodes, root, n);
    if n == root then [n] else [n] + Walk(nodes, root, n.parent)
  }

  /** Every walk over parents ends at the root, and never comes back to where it started. */
  lemma {:induction false} NoCycle(nodes: set<ObjNode>, root: ObjNode, n: ObjNode, a: ObjNode)
    requires TreeOk(nodes, root) && n in nodes && a in nodes && Below(nodes, n, a) && n != a
    ensures a.rank < n.rank && !Below(nodes, a, n)
    decreases n.rank
  {
    assert ParentOk(nodes, root, n);
    if n.parent != a {
      NoCycle(nodes, root, n.parent, a);
    }
    if Below(nodes, a, n) {
      RankBelow(nodes, a, n);
    }
  }

  /** To be below a node is to have it on the way to the root. */
  lemma {:induction false} BelowIsOnWalk(nodes: set<ObjNode>, root: ObjNode, n: ObjNode, a: ObjNode)
    requires TreeOk(nodes, root) && n in nodes
    ensures Below(nodes, n, a) <==> a in Walk(nodes, root, n)
    decreases n.rank
  {
    assert ParentOk(nodes, root, n);
    if n != root {
      BelowIsOnWalk(nodes, root, n.parent, a);
    }
  }

  lemma {:induction false} RankBelow(nodes: set<ObjNode>, n: ObjNode, a: ObjNode)
    requires n in nodes && Below(nodes, n, a)
    ensures n == a || a.rank < n.rank
    decreases n.rank
  {
    if n != a {
      RankBelow(nodes, n.parent, a);
    }
  }

  /** Nothing lies below a node without children. */
  lemma {:induction false} NothingBelowLeaf(nodes: set<ObjNode>, root: ObjNode, n: ObjNode, a: ObjNode)
    requires TreeOk(nodes, root) && n in nodes && a in nodes && a.kids == [] && n != a
    ensures !Below(nodes, n, a)
    decreases n.rank
  {
    assert ParentOk(nodes, root, n);
    if n != root && n.parent != a {
      NothingBelowLeaf(nodes, root, n.parent, a);
    }
  }

  // ---------------------------------------------------------------- rh_FindEntry, rh_CheckName

  /** The child of `d` that a name means. */
  ghost predicate Names(d: ObjNode, name: string, k: ObjNode)
    reads d, k
  {
    k in d.kids && SameName(name, k.name)
  }

  /** rh_FindEntry: the entry of that name, or with `follow` what it leads to. */
  method FindEntry(gd: GlobalData, dptr: ObjNode?, name: string, follow: bool)
    returns (found: bool, cur: ObjNode?, ghost entry: ObjNode?)
    requires dptr != null ==> SiblingsOk(dptr)
    modifies gd`fileErr
    ensures found ==> dptr != null && dptr.kind == UserDir && entry != null && Names(dptr, name, entry)
    ensures found ==> cur == (if follow then Resolve(entry) else entry) && gd.fileErr == old(gd.fileErr)
    ensures !found && dptr != null && dptr.kind == UserDir ==> forall k :: k in dptr.kids ==> !SameName(name, k.name)
    ensures !found ==> gd.fileErr == if dptr != null && dptr.kind != UserDir then ObjectWrongType else ObjectNotFound
  {
    found, cur, entry := false, null, null;
    if dptr == null || dptr.kind != UserDir {
      gd.fileErr := if dptr == null then ObjectNotFound else ObjectWrongType;
      return;
    }
    cur := dptr.firstChild;
    ghost var i := 0;
    while cur != null
      invariant 0 <= i <= |dptr.kids| && cur == if i < |dptr.kids| then dptr.kids[i] else null
      invariant forall j :: 0 <= j < i ==> !SameName(name, dptr.kids[j].name)
      decreases |dptr.kids| - i
    {
      if SameName(name, cur.name) {
        found, entry := true, cur;
        if follow && cur.kind.IsLink() && cur.target != null {
          cur := cur.target;
        }
        return;
      }
      assert dptr.kids[i].next == After(dptr.kids, i);
      cur, i := cur.next, i + 1;
    }
    gd.fileErr := ObjectNotFound;
  }

  /** What a last component means: the empty one the directory itself. */
  ghost predicate Finds(d: ObjNode, name: string, k: ObjNode)
    reads d`kids, k`name
  {
    if name == "" then k == d else k in d.kids && SameName(name, k.name)
  }

  /** rh_FindNode, once the directory is found. */
  method FindNode(gd: GlobalData, dptr: ObjNode, name: string, follow: bool)
    returns (found: bool, cur: ObjNode, ghost entry: ObjNode)
    requires SiblingsOk(dptr)
    modifies gd`fileErr
    ensures found ==> Finds(dptr, name, entry) && gd.fileErr == old(gd.fileErr)
    ensures found ==> cur == if name != "" && follow then Resolve(entry) else entry
    ensures found && name != "" ==> dptr.kind == UserDir
    ensures !found ==> name != "" && gd.fileErr == if dptr.kind != UserDir then ObjectWrongType else ObjectNotFound
    ensures !found && dptr.kind == UserDir ==> forall k :: k in dptr.kids ==> !SameName(name, k.name)
  {
    found, cur, entry := true, dptr, dptr;
    if name != "" {
      var node;
      ghost var e;
      found, node, e := FindEntry(gd, dptr, name, follow);
      if found {
        cur, entry := node, e;
      }
    }
  }

  /** What rh_CheckName accepts: at most the first 31 characters are looked at. */
  predicate GoodName(name: string) {
    && name != ""
    && forall i :: 0 <= i < |name| && i <= MAX_FILENAME ==> ' ' <= name[i] && name[i] != '/' && name[i] != ':'
  }

  /** The first 31 characters are printable and neither a slash nor a colon. */
  lemma GoodNameIs(name: string)
    ensures GoodName(name) <==>
              |name| > 0
              && forall i :: 0 <= i < |name| && i < 31 ==> name[i] as int >= 32 && name[i] as int !in {47, 58}
  {
  }

  /** rh_CheckName; it sets or clears the error in passing. */
  method CheckName(gd: GlobalData, name: string) returns (ok: bool)
    modifies gd`fileErr
    ensures ok <==> GoodName(name)
    ensures gd.fileErr == if ok then NoError else InvalidComponentName
  {
    gd.fileErr := InvalidComponentName;
    var i := 0;
    while i <= MAX_FILENAME && i < |name|
      invariant 0 <= i <= |name| && i <= MAX_FILENAME + 1
      invariant forall j :: 0 <= j < i ==> ' ' <= name[j] && name[j] != '/' && name[j] != ':'
    {
      if name[i] < ' ' || name[i] == '/' || name[i] == ':' {
        return false;
      }
      i := i + 1;
    }
    if i == 0 {
      return false;
    }
    gd.fileErr := NoError;
    return true;
  }

  // ---------------------------------------------------------------- rh_Rename

  /** Raises the ranks of everything below `from`, so that `from` may be hung below `to`. */
  ghost method LiftRanks(nodes: set<ObjNode>, root: ObjNode, from: ObjNode, to: ObjNode)
    requires TreeOk(nodes, root) && from in nodes && to in nodes && !Below(nodes, to, from)
    modifies nodes`rank
    ensures TreeOk(nodes, root) && to.rank < from.rank && to.rank == old(to.rank)
  {
    var sub := set n | n in nodes && Below(nodes, n, from);
    var lift := to.rank + 1;
    forall n | n in sub {
      n.rank := n.rank + lift;
    }
    forall n {:trigger ParentOk(nodes, root, n)} | n in nodes
      ensures ParentOk(nodes, root, n)
    {
      assert old(ParentOk(nodes, root, n));
      if n != root && n.parent in sub {
        assert old(Below(nodes, n, from));
      }
    }
    forall n {:trigger NodeOk(nodes, n)} | n in nodes
      ensures NodeOk(nodes, n)
    {
      assert old(NodeOk(nodes, n));
    }
  }

  /** The walk of rh_Rename over the ancestors of `to`. */
  method IsAncestor(ghost nodes: set<ObjNode>, ghost root: ObjNode, from: ObjNode, to: ObjNode) returns (found: bool)
    requires TreeOk(nodes, root) && to in nodes
    ensures found <==> to.parent != null && to.parent in nodes && Below(nodes, to.parent, from)
  {
    assert ParentOk(nodes, root, to);
    var tmp := to.parent;
    while tmp != null
      invariant tmp != null ==> to.parent != null && to.parent in nodes && tmp in nodes
      invariant tmp != null ==> (Below(nodes, to.parent, from) <==> Below(nodes, tmp, from))
      invariant tmp == null ==> to.parent == null || (to.parent in nodes && !Below(nodes, to.parent, from))
      decreases tmp != null, if tmp != null then tmp.rank else 0
    {
      if tmp == from {
        return true;
      }
      assert ParentOk(nodes, root, tmp);
      tmp := tmp.parent;
    }
    return false;
  }

  /** A detached node may be given any name. */
  method Relabel(ghost nodes: set<ObjNode>, ghost root: ObjNode, node: ObjNode, name: string)
    requires TreeOkBut(nodes, root, node) && node in nodes
    modifies node`name
    ensures TreeOkBut(nodes, root, node) && node.name == name
  {
    node.name := name;
    forall n {:trigger NodeOk(nodes, n)} | n in nodes
      ensures NodeOk(nodes, n)
    {
      assert old(NodeOk(nodes, n)) && node !in n.kids;
      assert forall j :: 0 <= j < |n.kids| ==> n.kids[j] in n.kids && n.kids[j].name == old(n.kids[j].name);
    }
  }

  /** The relinking at the end of rh_Rename. */
  method Move(ghost nodes: set<ObjNode>, ghost root: ObjNode, from: ObjNode, to: ObjNode, name: string)
    requires TreeOk(nodes, root) && from in nodes && to in nodes && from != root && from.parent != null
    requires !Below(nodes, to, from) && to.kind == UserDir
    requires forall k :: k in to.kids && k != from ==> !SameName(k.name, name)
    modifies nodes`rank, nodes`next, nodes`kids, nodes`firstChild, from`parent, from`name
    ensures TreeOk(nodes, root) && from.parent == to && from.name == name && from in to.kids
    ensures forall d, k :: d in nodes && k in d.kids && k != from ==> k in old(d.kids)
    ensures forall d, k :: d in nodes && k in old(d.kids) && k != from ==> k in d.kids
  {
    LiftRanks(nodes, root, from, to);
    ghost var d0 := from.parent;
    assert ParentOk(nodes, root, from) && NodeOk(nodes, d0);
    ghost var kids0 := d0.kids;
    ghost var i := Detach(nodes, root, from);
    WithoutFacts(kids0, i);
    Relabel(nodes, root, from, name);
    Attach(nodes, root, to, from);
  }

  /** The name is free in `to`, or it is `from` itself that has it. */
  ghost predicate NameFree(to: ObjNode, from: ObjNode, name: string)
    reads to`kids, to.kids`name
  {
    forall k :: k in to.kids && k != from ==> !SameName(k.name, name)
  }

  /** Nothing but a lock or a bad name stands against moving `k` from one directory to the other. */
  ghost predicate MayMove(nodes: set<ObjNode>, fromDir: ObjNode, fromName: string, toDir: ObjNode, toName: string,
                          k: ObjNode)
    reads fromDir`kids, k`name, toDir`kind, toDir`kids, toDir.kids`name, nodes`parent, nodes`rank
  {
    && k in fromDir.kids && SameName(fromName, k.name)
    && toDir.kind == UserDir && NameFree(toDir, k, toName) && toDir in nodes && !Below(nodes, toDir, k)
  }

  /** In a directory with unique names, the entry of a name is the only one. */
  lemma OnlyOne(d: ObjNode, k: ObjNode, name: string)
    requires NamesOk(d.kids) && k in d.kids && SameName(k.name, name)
    ensures NameFree(d, k, name)
  {
    var i :| 0 <= i < |d.kids| && d.kids[i] == k;
    forall m | m in d.kids && m != k
      ensures !SameName(m.name, name)
    {
      var j :| 0 <= j < |d.kids| && d.kids[j] == m;
      if i < j {
        assert !SameName(d.kids[i].name, d.kids[j].name);
      } else {
        assert !SameName(d.kids[j].name, d.kids[i].name);
      }
    }
  }

  /** The entry to be renamed, if its new name is not taken. */
  method NameChecks(gd: GlobalData, fromDir: ObjNode, fromName: string, toDir: ObjNode, toName: string)
    returns (node: ObjNode?)
    requires TreeOk(gd.nodes, gd.root) && fromDir in gd.nodes && toDir in gd.nodes
    modifies gd`fileErr
    ensures node != null ==>
              Names(fromDir, fromName, node) && node in gd.nodes
                && (toDir.kind == UserDir ==> NameFree(toDir, node, toName))
    ensures forall k :: k in fromDir.kids && SameName(fromName, k.name) && NameFree(toDir, k, toName) ==>
              k == node || toDir.kind != UserDir
    ensures node == null && fromDir.kind != UserDir ==> gd.fileErr == ObjectWrongType
    ensures (forall k :: k in fromDir.kids ==> !SameName(fromName, k.name)) ==>
              node == null && (fromDir.kind == UserDir ==> gd.fileErr == ObjectNotFound)
    ensures node == null ==>
              forall k :: k in fromDir.kids && SameName(fromName, k.name) ==>
                gd.fileErr == ObjectExists && toDir.kind == UserDir && !NameFree(toDir, k, toName)
    ensures node != null ==>
              fromDir.kind == UserDir && forall k :: k in fromDir.kids && SameName(fromName, k.name) ==> k == node
  {
    assert NodeOk(gd.nodes, fromDir) && NodeOk(gd.nodes, toDir);
    hide TreeOk, Fold;
    var found, other;
    ghost var entry, there;
    found, node, entry := FindEntry(gd, fromDir, fromName, false);
    if !found {
      return null;
    }
    OnlyOne(fromDir, node, fromName);
    if fromDir == toDir && SameName(fromName, toName) {
      SameTwice(node.name, fromName, toName);
      OnlyOne(toDir, node, toName);
      return;
    }
    found, other, there := FindEntry(gd, toDir, toName, false);
    if found {
      if fromDir == toDir {
        SameTwice(node.name, fromName, toName);
      }
      gd.fileErr := ObjectExists;
      return null;
    }
  }

  lemma SameTwice(a: string, b: string, c: string)
    requires SameName(a, b)
    ensures SameName(a, c) <==> SameName(b, c)
  {
  }

  /** Where a node cannot go: into a file, or below itself. */
  method WayChecks(gd: GlobalData, node: ObjNode, toDir: ObjNode) returns (ok: bool)
    requires TreeOk(gd.nodes, gd.root) && node in gd.nodes && toDir in gd.nodes && !toDir.kind.IsLink()
    modifies gd`fileErr
    ensures ok ==> toDir.kind == UserDir && (toDir != node ==> !Below(gd.nodes, toDir, node))
    ensures !ok ==> toDir.kind != UserDir || (Below(gd.nodes, toDir, node) && toDir != node)
    ensures !ok ==> gd.fileErr == if toDir.kind != UserDir then ObjectWrongType else ObjectInUse
    ensures ok ==> gd.fileErr == old(gd.fileErr)
  {
    assert NodeOk(gd.nodes, node);
    if toDir.kind.IsNegative() {
      gd.fileErr := ObjectWrongType;
      return false;
    }
    if node.kind.IsNegative() {
      if toDir != node {
        NothingBelowLeaf(gd.nodes, gd.root, toDir, node);
      }
      return true;
    }
    var above := IsAncestor(gd.nodes, gd.root, node, toDir);
    assert ParentOk(gd.nodes, gd.root, toDir);
    if above {
      if toDir == node {
        NoCycle(gd.nodes, gd.root, toDir.parent, node);
      }
      gd.fileErr := ObjectInUse;
      return false;
    }
    return true;
  }

  /** The checks of rh_Rename that come before its lock. */
  method RenameChecks(gd: GlobalData, fromDir: ObjNode, fromName: string, toDir: ObjNode, toName: string)
    returns (from: ObjNode?)
    requires TreeOk(gd.nodes, gd.root)
    requires fromDir in gd.nodes && toDir in gd.nodes && !toDir.kind.IsLink()
    modifies gd`fileErr
    ensures from != null ==>
              from in gd.nodes && from != gd.root && from.parent != null && Names(fromDir, fromName, from)
    ensures from != null ==> toDir.kind == UserDir && NameFree(toDir, from, toName)
    ensures from != null && toDir != from ==> !Below(gd.nodes, toDir, from)
    ensures from != null && toDir != from ==> MayMove(gd.nodes, fromDir, fromName, toDir, toName, from)
    ensures forall k :: MayMove(gd.nodes, fromDir, fromName, toDir, toName, k) ==> k == from && k != toDir
    ensures from == null && fromDir.kind != UserDir ==> gd.fileErr == ObjectWrongType
    ensures (forall k :: k in fromDir.kids ==> !SameName(fromName, k.name)) ==>
              from == null && (fromDir.kind == UserDir ==> gd.fileErr == ObjectNotFound)
    ensures from == null ==>
              forall k :: k in fromDir.kids && SameName(fromName, k.name) ==>
                && (toDir.kind != UserDir || !NameFree(toDir, k, toName) || (Below(gd.nodes, toDir, k) && toDir != k))
                && gd.fileErr == if toDir.kind != UserDir then ObjectWrongType
                                 else if !NameFree(toDir, k, toName) then ObjectExists else ObjectInUse
    ensures from != null ==>
              fromDir.kind == UserDir && forall k :: k in fromDir.kids && SameName(fromName, k.name) ==> k == from
  {
    hide TreeOk, NameFree, SameName;
    BelowItself(gd.nodes, toDir);
    var node := NameChecks(gd, fromDir, fromName, toDir, toName);
    if node == null {
      return null;
    }
    NotTheRoot(gd.nodes, gd.root, fromDir, node);
    var ok := WayChecks(gd, node, toDir);
    from := if ok then node else null;
  }

  /** An entry of a directory has a parent. */
  lemma NotTheRoot(nodes: set<ObjNode>, root: ObjNode, d: ObjNode, k: ObjNode)
    requires TreeOk(nodes, root) && d in nodes && k in d.kids
    ensures k != root && k.parent != null
  {
    assert NodeOk(nodes, d) && ParentOk(nodes, root, root);
  }

  lemma BelowItself(nodes: set<ObjNode>, n: ObjNode)
    requires n in nodes
    ensures Below(nodes, n, n)
  {
  }

  /** The link that a renaming leaves without a place on its chain, if any. */
  ghost function LooseAfter(node: ObjNode?): ObjNode?
    reads if node == null then {} else {node}
  {
    if node != null && node.kind.IsLink() then node else null
  }

  /** The unhooking in rh_RemoveNode; it has no field in common with the relinking. */
  method LoosenLink(gd: GlobalData, from: ObjNode)
    requires TreeOk(gd.nodes, gd.root) && from in gd.nodes
    modifies gd.nodes`firstLink, gd.nodes`links
    ensures TreeOkLoose(gd.nodes, gd.root, LooseAfter(from))
  {
    assert NodeOk(gd.nodes, from);
    if from.kind.IsLink() {
      assert NodeOk(gd.nodes, from.target);
      Loosen(gd.nodes, gd.root, from);
    } else {
      NothingLoose(gd.nodes, gd.root);
    }
  }

  /** What rh_Rename does while it holds the lock. A link loses its place on the chain of its
      target for good. */
  method LockedRename(gd: GlobalData, from: ObjNode, toDir: ObjNode, toName: string) returns (ok: bool)
    requires TreeOk(gd.nodes, gd.root) && from in gd.nodes && toDir in gd.nodes && from != gd.root
    requires from.parent != null
    requires toDir.kind == UserDir && NameFree(toDir, from, toName)
    requires toDir != from ==> !Below(gd.nodes, toDir, from)
    modifies gd`fileErr, gd.nodes`firstLink, gd.nodes`links
    modifies gd.nodes`rank, gd.nodes`next, gd.nodes`kids, gd.nodes`firstChild, from`parent, from`name
    ensures TreeOkLoose(gd.nodes, gd.root, if ok then LooseAfter(from) else null)
    ensures ok <==> GoodName(toName) && toDir != from
    ensures ok ==> from.parent == toDir && from.name == toName
    ensures !ok ==> unchanged(gd.nodes) && gd.fileErr == if GoodName(toName) then ObjectInUse else InvalidComponentName
  {
    hide TreeOk, TreeOkLoose;
    ok := CheckName(gd, toName);
    if !ok {
      NothingLoose(gd.nodes, gd.root);
      return;
    }
    if toDir == from {
      gd.fileErr := ObjectInUse;
      NothingLoose(gd.nodes, gd.root);
      return false;
    }
    Move(gd.nodes, gd.root, from, toDir, toName);
    LoosenLink(gd, from);
  }

  /** The locking around it. */
  method RenameNode(gd: GlobalData, from: ObjNode, toDir: ObjNode, toName: string) returns (ok: bool)
    requires TreeOk(gd.nodes, gd.root) && RamLocks.TableOk(gd) && from in gd.nodes && toDir in gd.nodes
    requires from != gd.root && from.parent != null && toDir.kind == UserDir && NameFree(toDir, from, toName)
    requires toDir != from ==> !Below(gd.nodes, toDir, from)
    modifies gd`lockList, gd`locks, gd`fileErr, gd.locks`next
    modifies gd.nodes`firstLink, gd.nodes`links
    modifies gd.nodes`rank, gd.nodes`next, gd.nodes`kids, gd.nodes`firstChild, from`parent, from`name
    ensures TreeOkLoose(gd.nodes, gd.root, if ok then LooseAfter(from) else null)
    ensures RamLocks.TableOk(gd) && gd.locks == old(gd.locks)
    ensures !ok ==> unchanged(gd.nodes)
    ensures !ok && gd.reliable ==> !GoodName(toName) || toDir == from || RamLocks.Conflicts(gd.locks, from, SHARED_LOCK)
    ensures ok ==> from.parent == toDir && from.name == toName && GoodName(toName) && toDir != from
    ensures ok ==> !old(RamLocks.Conflicts(gd.locks, from, SHARED_LOCK))
    ensures !ok ==>
              || (gd.fileErr == if RamLocks.Conflicts(gd.locks, from, SHARED_LOCK) || GoodName(toName) then ObjectInUse
                                else InvalidComponentName)
              || (gd.fileErr == NoFreeStore && !gd.reliable)
  {
    hide TreeOk, TreeOkLoose, RamLocks.TableOk, NameFree, GoodName, RamLocks.Runs.View, RamLocks.Runs.Apply;
    ghost var others := gd.locks;
    var lock := RamLocks.GetLock(gd, from, SHARED_LOCK);
    if lock == null {
      NothingLoose(gd.nodes, gd.root);
      return false;
    }
    ok := LockedRename(gd, from, toDir, toName);
    RamLocks.FreeTemp(gd, lock, others);
  }

  /** rh_Rename, once the two directories are found. The tree stays consistent unless it is a
      hard link that is renamed: that one is off the chain of its target from then on. */
  method Rename(gd: GlobalData, fromDir: ObjNode, fromName: string, toDir: ObjNode, toName: string)
    returns (ok: bool, ghost node: ObjNode?)
    requires TreeOk(gd.nodes, gd.root) && RamLocks.TableOk(gd)
    requires fromDir in gd.nodes && toDir in gd.nodes && !toDir.kind.IsLink()
    modifies gd`lockList, gd`locks, gd`fileErr, gd.locks`next
    modifies gd.nodes`rank, gd.nodes`next, gd.nodes`kids, gd.nodes`firstChild, gd.nodes`parent, gd.nodes`name
    modifies gd.nodes`firstLink, gd.nodes`links
    ensures TreeOkLoose(gd.nodes, gd.root, LooseAfter(node)) && RamLocks.TableOk(gd) && gd.locks == old(gd.locks)
    ensures TreeOk(gd.nodes, gd.root) <==> LooseAfter(node) == null
    ensures forall n :: n in gd.nodes && n != node ==> n.parent == old(n.parent) && n.name == old(n.name)
    ensures !ok ==> node == null && unchanged(gd.nodes)
    ensures !ok && gd.reliable ==>
              forall k :: k in fromDir.kids && MayMove(gd.nodes, fromDir, fromName, toDir, toName, k) ==>
              !GoodName(toName) || RamLocks.Conflicts(gd.locks, k, SHARED_LOCK)
    ensures ok ==> node != null && node in gd.nodes && node.parent == toDir && node.name == toName && GoodName(toName)
    ensures ok ==> old(Names(fromDir, fromName, node)) && !old(Below(gd.nodes, toDir, node))
    ensures ok ==>
              && old(MayMove(gd.nodes, fromDir, fromName, toDir, toName, node))
              && !old(RamLocks.Conflicts(gd.locks, node, SHARED_LOCK))
    ensures ok ==>
              old(forall k :: k in fromDir.kids && MayMove(gd.nodes, fromDir, fromName, toDir, toName, k) ==> k == node)
    // the errors
    ensures !ok && fromDir.kind != UserDir ==> gd.fileErr == ObjectWrongType
    ensures !ok && fromDir.kind == UserDir && (forall k :: k in fromDir.kids ==> !SameName(fromName, k.name)) ==>
              gd.fileErr == ObjectNotFound
    ensures !ok ==>
              forall k :: k in fromDir.kids && SameName(fromName, k.name) ==>
                || (gd.fileErr == NoFreeStore && !gd.reliable)
                || gd.fileErr == if toDir.kind != UserDir then ObjectWrongType
                                 else if !NameFree(toDir, k, toName) then ObjectExists
                                 else if Below(gd.nodes, toDir, k) && toDir != k then ObjectInUse
                                 else if RamLocks.Conflicts(gd.locks, k, SHARED_LOCK) then ObjectInUse
                                 else if !GoodName(toName) then InvalidComponentName else ObjectInUse
  {
    hide TreeOk, TreeOkLoose, RamLocks.TableOk, Below, MayMove, NameFree, SameName, GoodName;
    ok, node := false, null;
    NothingLoose(gd.nodes, gd.root);
    var from := RenameChecks(gd, fromDir, fromName, toDir, toName);
    if from == null {
      return;
    }
    forall k | k in old(fromDir.kids) && old(MayMove(gd.nodes, fromDir, fromName, toDir, toName, k))
      ensures k == from
    {
      assert MayMove(gd.nodes, fromDir, fromName, toDir, toName, k);
    }
    ok := RenameNode(gd, from, toDir, toName);
    node := if ok then from else null;
    LooseIsBroken(gd.nodes, gd.root, LooseAfter(node));
  }
}
