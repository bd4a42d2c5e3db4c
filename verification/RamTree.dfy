/** The directory graph of the RAM handler: rh_FindEntry, rh_RemoveNode, and the parts of
    rh_CreateObject, rh_DeleteObject, rh_Rename and rh_Makelink that change it. A directory
    is a sibling list with parent pointers; a target chains the hard links on it. */
module RamTree {
  import opened Machine
  import opened Lists
  import opened RamTypes

  // ---------------------------------------------------------------- names

  function Lower(c: char): char {
    if 'A' <= c <= 'Z' then c + 32 as char else c
  }

  /** Names are compared without regard to case. */
  function Fold(name: string): string {
    seq(|name|, i requires 0 <= i < |name| => Lower(name[i]))
  }

  predicate SameName(a: string, b: string) {
    Fold(a) == Fold(b)
  }

  /** Two names are the same when each character of one is that of the other, or the other case of the
      same letter. */
  lemma SameNameIs(a: string, b: string)
    ensures SameName(a, b) <==>
              && |a| == |b|
              && forall i :: 0 <= i < |a| ==>
                   || a[i] == b[i]
                   || ('A' <= a[i] <= 'Z' && b[i] as int == a[i] as int + 32)
                   || ('A' <= b[i] <= 'Z' && a[i] as int == b[i] as int + 32)
  {
    assert |a| == |b| ==> forall i :: 0 <= i < |a| ==> (Fold(a)[i] == Fold(b)[i] <==> Lower(a[i]) == Lower(b[i]));
    if SameName(a, b) {
      assert |Fold(a)| == |Fold(b)|;
      forall i | 0 <= i < |a|
        ensures Lower(a[i]) == Lower(b[i])
      {
        assert Fold(a)[i] == Fold(b)[i];
      }
    }
  }

  // ---------------------------------------------------------------- representation

  function After(list: seq<ObjNode>, i: nat): ObjNode?
    requires i < |list|
  {
    if i + 1 < |list| then list[i + 1] else null
  }

  function Head(list: seq<ObjNode>): ObjNode? {
    if list == [] then null else list[0]
  }

  /** The sibling list of a directory is `d.kids`. */
  ghost predicate SiblingsOk(d: ObjNode)
    reads d`firstChild, d`kids, d.kids`next
  {
    && d.firstChild == Head(d.kids)
    && (forall i {:trigger d.kids[i].next} :: 0 <= i < |d.kids| ==> d.kids[i].next == After(d.kids, i))
    && NoRepeats(d.kids)
  }

  /** The link chain of a target is `t.links`. */
  ghost predicate ChainedOk(t: ObjNode)
    reads t`firstLink, t`links, t.links`firstLink
  {
    && t.firstLink == Head(t.links)
    && (forall i {:trigger t.links[i].firstLink} :: 0 <= i < |t.links| ==> t.links[i].firstLink == After(t.links, i))
    && NoRepeats(t.links)
  }

  /** No two entries of a directory have the same name. */
  ghost predicate NamesOk(kids: seq<ObjNode>)
    reads kids`name
  {
    forall i, j :: 0 <= i < j < |kids| ==> !SameName(kids[i].name, kids[j].name)
  }

  /** A node hangs below its parent, and only the root has none. Ranks grow downwards, so
      every walk over parents ends, and it ends at the root. */
  ghost predicate ParentOk(nodes: set<ObjNode>, root: ObjNode, n: ObjNode)
    reads n`parent, n`rank, nodes`kids, nodes`rank
  {
    if n == root then
      n.parent == null
    else
      n.parent != null && n.parent in nodes && n in n.parent.kids && n.parent.rank < n.rank
  }

  ghost predicate KidsOk(nodes: set<ObjNode>, n: ObjNode)
    reads n`firstChild, n`kids, n`kind, nodes`parent, nodes`next, nodes`name
  {
    && (forall k :: k in n.kids ==> k in nodes && k.parent == n)
    && SiblingsOk(n) && NamesOk(n.kids)
    && (n.kind != UserDir ==> n.kids == [])
  }

  /** A link is on the chain of its target and nowhere else; the chain of a target holds
      exactly the links to it. */
  ghost predicate LinksOk(nodes: set<ObjNode>, n: ObjNode)
    reads n`kind, n`links, n`data, n`chain, n`target, n`firstLink
    reads nodes`kind, nodes`links, nodes`target, nodes`firstLink
  {
    if n.kind.IsLink() then
      && n.links == [] && n.data == null && n.chain == []
      && n.target != null && n.target in nodes && !n.target.kind.IsLink() && n in n.target.links
      && (n.kind.LinkFile? <==> n.target.kind.File?)
    else
      && n.target == null
      && (forall l :: l in n.links ==> l in nodes && l.kind.IsLink() && l.target == n)
      && ChainedOk(n)
  }

  ghost predicate NodeOk(nodes: set<ObjNode>, n: ObjNode)
    reads n`firstChild, n`kids, n`kind, nodes`parent, nodes`next, nodes`name
    reads n`links, n`data, n`chain, n`target, n`firstLink, nodes`kind, nodes`links, nodes`target, nodes`firstLink
  {
    KidsOk(nodes, n) && LinksOk(nodes, n)
  }

  /** The nodes form a tree, apart from `x`, which is missing from its parent's list. */
  ghost predicate TreeOkBut(nodes: set<ObjNode>, root: ObjNode, x: ObjNode?)
    reads nodes`parent, nodes`rank, nodes`kids, nodes`firstChild, nodes`kind, nodes`next, nodes`name
    reads nodes`links, nodes`data, nodes`chain, nodes`target, nodes`firstLink
  {
    && root in nodes && root != x && root.kind == UserDir
    && (forall n {:trigger ParentOk(nodes, root, n)} :: n in nodes && n != x ==> ParentOk(nodes, root, n))
    && (forall n {:trigger NodeOk(nodes, n)} :: n in nodes ==> NodeOk(nodes, n))
    && (x != null ==> forall n {:trigger n.kids} :: n in nodes ==> x !in n.kids)
  }

  ghost predicate TreeOk(nodes: set<ObjNode>, root: ObjNode)
    reads nodes`parent, nodes`rank, nodes`kids, nodes`firstChild, nodes`kind, nodes`next, nodes`name
    reads nodes`links, nodes`data, nodes`chain, nodes`target, nodes`firstLink
  {
    TreeOkBut(nodes, root, null)
  }

  // ---------------------------------------------------------------- sibling lists

  lemma NamesWithout(kids: seq<ObjNode>, i: nat)
    requires NamesOk(kids) && i < |kids|
    ensures NamesOk(Without(kids, i))
  {
  }

  lemma NamesInFront(node: ObjNode, kids: seq<ObjNode>)
    requires NamesOk(kids) && forall k :: k in kids ==> !SameName(k.name, node.name)
    ensures NamesOk([node] + kids)
  {
  }

  /** What follows element `j` once element `i` is gone. */
  lemma AfterWithout(list: seq<ObjNode>, i: nat, j: nat)
    requires i < |list| && j < |list| - 1
    ensures After(Without(list, i), j) == if j + 1 == i then After(list, i) else After(list, if j < i then j else j + 1)
  {
  }

  /** The first loop of rh_RemoveNode: takes `node` out of its parent's sibling list. */
  method Unlist(d: ObjNode, node: ObjNode) returns (ghost i: nat)
    requires SiblingsOk(d) && node in d.kids
    modifies d`firstChild, d`kids, d.kids`next
    ensures SiblingsOk(d)
    ensures i < |old(d.kids)| && old(d.kids)[i] == node && d.kids == Without(old(d.kids), i)
  {
    var n := d.firstChild;
    var last: ObjNode? := null;
    i := 0;
    while n != node
      invariant i <= |d.kids| && n == if i < |d.kids| then d.kids[i] else null
      invariant last == if i > 0 then d.kids[i - 1] else null
      invariant node !in d.kids[..i]
      decreases |d.kids| - i
    {
      assert d.kids[i].next == After(d.kids, i);
      last := n;
      n, i := n.next, i + 1;
    }
    ghost var before := d.kids;
    assert before[i].next == After(before, i);
    if last == null {
      d.firstChild := node.next;
    } else {
      last.next := node.next;
    }
    d.kids := Without(before, i);
    WithoutFacts(before, i);
    forall j {:trigger d.kids[j].next} | 0 <= j < |d.kids|
      ensures d.kids[j].next == After(d.kids, j)
    {
      AfterWithout(before, i, j);
    }
  }

  /** The head insertion of rh_CreateObject and rh_Rename. */
  method Enlist(d: ObjNode, node: ObjNode)
    requires SiblingsOk(d) && node !in d.kids && d != node
    modifies d`firstChild, d`kids, node`next, node`parent
    ensures SiblingsOk(d) && d.kids == [node] + old(d.kids) && node.parent == d
  {
    node.next := d.firstChild;
    node.parent := d;
    d.firstChild := node;
    d.kids := [node] + d.kids;
    assert forall j {:trigger d.kids[j].next} :: 0 < j < |d.kids| ==> d.kids[j] == old(d.kids)[j - 1];
  }

  /** The second loop of rh_RemoveNode: takes a link out of the chain of its target. */
  method Unchain(t: ObjNode, node: ObjNode) returns (ghost i: nat)
    requires ChainedOk(t) && node in t.links && t !in t.links
    modifies t`firstLink, t`links, t.links`firstLink
    ensures ChainedOk(t)
    ensures i < |old(t.links)| && old(t.links)[i] == node && t.links == Without(old(t.links), i)
  {
    var n := t;
    i := 0;
    while n.firstLink != node
      invariant i < |t.links| && n == if i == 0 then t else t.links[i - 1]
      invariant n.firstLink == t.links[i] && node !in t.links[..i]
      decreases |t.links| - i
    {
      assert t.links[i].firstLink == After(t.links, i);
      n, i := n.firstLink, i + 1;
    }
    ghost var before := t.links;
    assert before[i].firstLink == After(before, i);
    n.firstLink := node.firstLink;
    t.links := Without(before, i);
    WithoutFacts(before, i);
    forall j {:trigger t.links[j].firstLink} | 0 <= j < |t.links|
      ensures t.links[j].firstLink == After(t.links, j)
    {
      AfterWithout(before, i, j);
    }
  }

  // ---------------------------------------------------------------- rh_RemoveNode

  /** Takes `node` off its parent's list; the rest of the tree is as it was. */
  method Detach(ghost nodes: set<ObjNode>, ghost root: ObjNode, node: ObjNode) returns (ghost i: nat)
    requires TreeOk(nodes, root) && node in nodes && node != root && node.parent != null
    modifies node.parent`firstChild, node.parent`kids, node.parent.kids`next
    ensures TreeOkBut(nodes, root, node)
    ensures i < |old(node.parent.kids)| && old(node.parent.kids)[i] == node
    ensures node.parent.kids == Without(old(node.parent.kids), i)
  {
    hide SameName;
    var d := node.parent;
    assert ParentOk(nodes, root, node) && NodeOk(nodes, d);
    ghost var before := d.kids;
    i := Unlist(d, node);
    WithoutFacts(before, i);
    NamesWithout(before, i);
    forall n {:trigger KidsOk(nodes, n)} | n in nodes
      ensures KidsOk(nodes, n)
    {
      assert old(NodeOk(nodes, n));
      if n != d {
        assert n.kids == old(n.kids) && NamesOk(n.kids);
        forall j {:trigger n.kids[j].next} | 0 <= j < |n.kids|
          ensures n.kids[j].next == After(n.kids, j)
        {
          assert n.kids[j] in n.kids && n.kids[j] !in before;
          assert n.kids[j].next == old(n.kids[j].next);
        }
      }
    }
    forall n {:trigger LinksOk(nodes, n)} | n in nodes
      ensures LinksOk(nodes, n)
    {
      assert old(NodeOk(nodes, n));
    }
    forall n {:trigger ParentOk(nodes, root, n)} | n in nodes && n != node
      ensures ParentOk(nodes, root, n)
    {
      assert old(ParentOk(nodes, root, n));
    }
    forall n {:trigger n.kids} | n in nodes
      ensures node !in n.kids
    {
      assert old(NodeOk(nodes, n));
    }
  }

  /** A detached leaf may go. */
  lemma DropLeaf(nodes: set<ObjNode>, root: ObjNode, node: ObjNode)
    requires TreeOkBut(nodes, root, node) && node in nodes && !node.kind.IsLink() && node.kids == [] && node.links == []
    ensures TreeOk(nodes - {node}, root)
  {
    var rest := nodes - {node};
    assert NodeOk(nodes, node);
    forall n {:trigger NodeOk(rest, n)} | n in rest
      ensures NodeOk(rest, n)
    {
      assert NodeOk(nodes, n);
    }
    forall n {:trigger ParentOk(rest, root, n)} | n in rest
      ensures ParentOk(rest, root, n)
    {
      assert ParentOk(nodes, root, n);
    }
  }

  /** A detached link leaves the chain of its target, and is gone. */
  method Unhook(ghost nodes: set<ObjNode>, ghost root: ObjNode, node: ObjNode) returns (ghost i: nat)
    requires TreeOkBut(nodes, root, node) && node in nodes && node.kind.IsLink() && node.target != null
    modifies node.target`firstLink, node.target`links, node.target.links`firstLink
    ensures TreeOk(nodes - {node}, root)
    ensures i < |old(node.target.links)| && old(node.target.links)[i] == node
    ensures node.target.links == Without(old(node.target.links), i)
  {
    var t := node.target;
    assert NodeOk(nodes, node) && NodeOk(nodes, t);
    ghost var before, rest := t.links, nodes - {node};
    i := Unchain(t, node);
    WithoutFacts(before, i);
    forall n {:trigger NodeOk(rest, n)} | n in rest
      ensures NodeOk(rest, n)
    {
      assert old(NodeOk(nodes, n));
      if n != t && !n.kind.IsLink() {
        forall j {:trigger n.links[j].firstLink} | 0 <= j < |n.links|
          ensures n.links[j].firstLink == After(n.links, j)
        {
          assert n.links[j] in n.links && n.links[j] !in before;
          assert n.links[j].firstLink == old(n.links[j].firstLink);
        }
      }
    }
    forall n {:trigger ParentOk(rest, root, n)} | n in rest
      ensures ParentOk(rest, root, n)
    {
      assert old(ParentOk(nodes, root, n));
    }
  }

  /** A tree in which the link `loose` hangs in its directory, but is missing from the chain of
      its target. */
  ghost predicate TreeOkLoose(nodes: set<ObjNode>, root: ObjNode, loose: ObjNode?)
    reads nodes`parent, nodes`rank, nodes`kids, nodes`firstChild, nodes`kind, nodes`next, nodes`name
    reads nodes`links, nodes`data, nodes`chain, nodes`target, nodes`firstLink
  {
    && root in nodes && root.kind == UserDir
    && (forall n {:trigger ParentOk(nodes, root, n)} :: n in nodes ==> ParentOk(nodes, root, n))
    && (forall n {:trigger KidsOk(nodes, n)} :: n in nodes ==> KidsOk(nodes, n))
    && (forall n {:trigger LinksOk(nodes, n)} :: n in nodes && n != loose ==> LinksOk(nodes, n))
    && (loose != null ==> loose in nodes && loose.kind.IsLink() && loose.target != null && loose.target in nodes
                          && loose !in loose.target.links)
  }

  lemma NothingLoose(nodes: set<ObjNode>, root: ObjNode)
    ensures TreeOk(nodes, root) <==> TreeOkLoose(nodes, root, null)
  {
    if TreeOk(nodes, root) {
      assert forall n :: n in nodes ==> NodeOk(nodes, n);
    } else if TreeOkLoose(nodes, root, null) {
      assert forall n :: n in nodes ==> KidsOk(nodes, n) && LinksOk(nodes, n);
    }
  }

  /** Such a link is the only thing wrong with the tree, and it is wrong. */
  lemma LooseIsBroken(nodes: set<ObjNode>, root: ObjNode, loose: ObjNode?)
    requires TreeOkLoose(nodes, root, loose)
    ensures TreeOk(nodes, root) <==> loose == null
  {
    if loose == null {
      NothingLoose(nodes, root);
    } else {
      assert !LinksOk(nodes, loose) && !NodeOk(nodes, loose);
    }
  }

  /** The unhooking in rh_RemoveNode, for a link that stays in the tree. */
  method Loosen(ghost nodes: set<ObjNode>, ghost root: ObjNode, node: ObjNode)
    requires TreeOk(nodes, root) && node in nodes && node.kind.IsLink() && node.target != null
    modifies node.target`firstLink, node.target`links, node.target.links`firstLink
    ensures TreeOkLoose(nodes, root, node)
  {
    var t := node.target;
    assert NodeOk(nodes, node) && NodeOk(nodes, t);
    ghost var before := t.links;
    ghost var i := Unchain(t, node);
    WithoutFacts(before, i);
    forall n {:trigger ParentOk(nodes, root, n)} | n in nodes
      ensures ParentOk(nodes, root, n)
    {
      assert old(ParentOk(nodes, root, n));
    }
    forall n {:trigger KidsOk(nodes, n)} | n in nodes
      ensures KidsOk(nodes, n)
    {
      assert old(NodeOk(nodes, n));
    }
    forall n {:trigger LinksOk(nodes, n)} | n in nodes && n != node
      ensures LinksOk(nodes, n)
    {
      assert old(NodeOk(nodes, n));
      if n != t && !n.kind.IsLink() {
        forall j {:trigger n.links[j].firstLink} | 0 <= j < |n.links|
          ensures n.links[j].firstLink == After(n.links, j)
        {
          assert n.links[j] in n.links && n.links[j] !in before;
          assert n.links[j].firstLink == old(n.links[j].firstLink);
        }
      }
    }
  }

  /** The target of a link, as a set. */
  ghost function TargetOf(node: ObjNode): set<ObjNode>
    reads node
  {
    if node.kind.IsLink() && node.target != null then {node.target} else {}
  }

  /** The links on the chain that a link is on. */
  ghost function ChainOf(node: ObjNode): set<ObjNode>
    reads node, TargetOf(node)
  {
    set t, l | t in TargetOf(node) && l in t.links :: l
  }

  /** rh_RemoveNode, for a node that is about to be freed: it leaves the list of its parent,
      and a link the chain of its target; the others keep their order. */
  method RemoveNode(ghost nodes: set<ObjNode>, ghost root: ObjNode, node: ObjNode) returns (ghost i: nat, ghost j: nat)
    requires TreeOk(nodes, root) && node in nodes && node != root && node.kids == [] && node.links == []
    requires node.parent != null && (node.kind.IsLink() ==> node.target != null)
    modifies node.parent`firstChild, node.parent`kids, node.parent.kids`next
    modifies TargetOf(node)`firstLink, TargetOf(node)`links, ChainOf(node)`firstLink
    ensures TreeOk(nodes - {node}, root)
    ensures i < |old(node.parent.kids)| && old(node.parent.kids)[i] == node
    ensures node.parent.kids == Without(old(node.parent.kids), i)
    ensures node.kind.IsLink() ==> j < |old(node.target.links)| && old(node.target.links)[j] == node
    ensures node.kind.IsLink() ==> node.target.links == Without(old(node.target.links), j)
  {
    hide TreeOkBut;
    j := 0;
    assert node.kind.IsLink() ==> node.target in TargetOf(node) && forall l :: l in node.target.links ==>
      l in ChainOf(node);
    i := Detach(nodes, root, node);
    if node.kind.IsLink() {
      j := Unhook(nodes, root, node);
    } else {
      DropLeaf(nodes, root, node);
    }
  }

  // ---------------------------------------------------------------- insertion

  /** Puts a detached node at the front of the list of `d`. */
  method Attach(ghost nodes: set<ObjNode>, ghost root: ObjNode, d: ObjNode, node: ObjNode)
    requires TreeOkBut(nodes, root, node) && node in nodes && d in nodes && d.kind == UserDir && d.rank < node.rank
    requires forall k :: k in d.kids ==> !SameName(k.name, node.name)
    modifies d`firstChild, d`kids, node`next, node`parent
    ensures TreeOk(nodes, root) && d.kids == [node] + old(d.kids) && node.parent == d
  {
    assert NodeOk(nodes, d);
    ghost var before := d.kids;
    Enlist(d, node);
    NamesInFront(node, before);
    forall n {:trigger NodeOk(nodes, n)} | n in nodes
      ensures NodeOk(nodes, n)
    {
      assert old(NodeOk(nodes, n));
      if n != d {
        assert n.kids == old(n.kids) && NamesOk(n.kids);
        forall j {:trigger n.kids[j].next} | 0 <= j < |n.kids|
          ensures n.kids[j].next == After(n.kids, j)
        {
          assert n.kids[j] in n.kids && n.kids[j] != node;
          assert n.kids[j].next == old(n.kids[j].next);
        }
      }
    }
    forall n {:trigger ParentOk(nodes, root, n)} | n in nodes
      ensures ParentOk(nodes, root, n)
    {
      if n != node {
        assert old(ParentOk(nodes, root, n));
      }
    }
  }

  /** A new node joins detached. */
  lemma JoinLeaf(nodes: set<ObjNode>, root: ObjNode, node: ObjNode)
    requires TreeOk(nodes, root) && node !in nodes
    requires node.kids == [] && node.links == [] && node.firstChild == null && node.firstLink == null
    requires node.target == null
    requires !node.kind.IsLink()
    ensures TreeOkBut(nodes + {node}, root, node)
  {
    var more := nodes + {node};
    forall n {:trigger NodeOk(more, n)} | n in more
      ensures NodeOk(more, n)
    {
      if n != node {
        assert NodeOk(nodes, n);
      }
    }
    forall n {:trigger ParentOk(more, root, n)} | n in more && n != node
      ensures ParentOk(more, root, n)
    {
      assert ParentOk(nodes, root, n);
    }
    forall n {:trigger n.kids} | n in more
      ensures node !in n.kids
    {
      if n != node {
        assert NodeOk(nodes, n);
      }
    }
  }

  // ---------------------------------------------------------------- links

  /** What a name leads to: the node itself, or the target of a link. */
  function Resolve(n: ObjNode): ObjNode
    reads n`kind, n`target
  {
    if n.kind.IsLink() && n.target != null then n.target else n
  }

  datatype Attributes = Attributes(kind: Kind, size: int, protection: Protection, data: DataBlock?,
                                   chain: seq<DataBlock>, content: seq<byte>)

  ghost function AttributesOf(n: ObjNode): Attributes
    reads n`kind, n`size, n`protection, n`data, n`chain, n`content
  {
    Attributes(n.kind, n.size, n.protection, n.data, n.chain, n.content)
  }

  /** A link leads to its target, any other node to itself. */
  lemma ResolveIs(n: ObjNode)
    ensures n.kind.LinkFile? || n.kind.LinkDir? ==> Resolve(n) == if n.target == null then n else n.target
    ensures n.kind.File? || n.kind.UserDir? ==> Resolve(n) == n
  {
  }

  /** The nodes that the names of `nodes` lead to. */
  ghost function Resolved(nodes: set<ObjNode>): (r: set<ObjNode>)
    reads nodes`kind, nodes`target
    ensures forall n :: n in nodes ==> Resolve(n) in r
  {
    set n | n in nodes :: Resolve(n)
  }

  /** Every name of `nodes` leads to what `meaning` says. */
  ghost predicate Means(nodes: set<ObjNode>, meaning: map<ObjNode, Attributes>)
    reads nodes`kind, nodes`target
    reads Resolved(nodes)`kind, Resolved(nodes)`size, Resolved(nodes)`protection
    reads Resolved(nodes)`data, Resolved(nodes)`chain, Resolved(nodes)`content
  {
    forall n :: n in nodes ==> n in meaning && meaning[n] == AttributesOf(Resolve(n))
  }

  /** The assignments of rh_Makelink. */
  method LinkFields(newnode: ObjNode, node: ObjNode)
    requires ChainedOk(node) && newnode !in node.links && newnode != node
    modifies newnode`kind, newnode`firstLink, newnode`target, node`firstLink, node`links
    ensures ChainedOk(node) && node.links == [newnode] + old(node.links)
    ensures newnode.kind == (if node.kind.IsNegative() then LinkFile else LinkDir) && newnode.target == node
  {
    newnode.kind := if node.kind.IsNegative() then LinkFile else LinkDir;
    newnode.firstLink := node.firstLink;
    node.firstLink := newnode;
    newnode.target := node;
    node.links := [newnode] + node.links;
    assert forall j :: 0 < j < |node.links| ==> node.links[j] == old(node.links)[j - 1];
  }

  /** rh_Makelink, once the new node exists: it becomes the first link of `node`. */
  method ChainLink(ghost nodes: set<ObjNode>, ghost root: ObjNode, newnode: ObjNode, node: ObjNode)
    requires TreeOk(nodes, root) && node in nodes && newnode in nodes && node != newnode && newnode != root
    requires !node.kind.IsLink()
    requires newnode.kind == UserDir && newnode.kids == [] && newnode.links == [] && newnode.data == null
    requires newnode.chain == []
    modifies newnode`kind, newnode`firstLink, newnode`target, node`firstLink, node`links
    ensures TreeOk(nodes, root) && node.links == [newnode] + old(node.links)
    ensures newnode.kind.IsLink() && newnode.target == node
    ensures forall n :: n in nodes && n != newnode ==> AttributesOf(Resolve(n)) == old(AttributesOf(Resolve(n)))
  {
    assert NodeOk(nodes, node) && NodeOk(nodes, newnode) && NodeOk(nodes, root);
    ghost var before := node.links;
    LinkFields(newnode, node);
    forall n {:trigger KidsOk(nodes, n)} | n in nodes
      ensures KidsOk(nodes, n)
    {
      assert old(NodeOk(nodes, n));
    }
    forall n {:trigger LinksOk(nodes, n)} | n in nodes
      ensures LinksOk(nodes, n)
    {
      assert old(NodeOk(nodes, n));
      if n != node && !n.kind.IsLink() {
        forall j {:trigger n.links[j].firstLink} | 0 <= j < |n.links|
          ensures n.links[j].firstLink == After(n.links, j)
        {
          assert n.links[j] in n.links && n.links[j] != newnode && n.links[j] != node;
          assert n.links[j].firstLink == old(n.links[j].firstLink);
        }
      }
    }
    forall n {:trigger ParentOk(nodes, root, n)} | n in nodes
      ensures ParentOk(nodes, root, n)
    {
      assert old(ParentOk(nodes, root, n));
    }
    forall n | n in nodes && n != newnode
      ensures AttributesOf(Resolve(n)) == old(AttributesOf(Resolve(n)))
    {
      assert old(NodeOk(nodes, n));
    }
  }

  /** The loop of rh_DeleteObject that gives the other links their new target. */
  method Retarget(ghost links: seq<ObjNode>, first: ObjNode)
    requires links != [] && first == links[0] && NoRepeats(links)
    requires forall i {:trigger links[i].firstLink} :: 0 <= i < |links| ==> links[i].firstLink == After(links, i)
    modifies links[1..]`target
    ensures forall l :: l in links[1..] ==> l.target == first
  {
    var n := first.firstLink;
    assert links[0].firstLink == After(links, 0);
    ghost var j := 1;
    while n != null
      invariant 1 <= j <= |links| && n == if j < |links| then links[j] else null
      invariant forall i :: 1 <= i < j ==> links[i].target == first
      decreases |links| - j
    {
      assert n in links[1..];
      n.target := first;
      assert links[j].firstLink == After(links, j);
      n, j := n.firstLink, j + 1;
    }
  }

  /** The copying of rh_DeleteObject: the first link takes over what the target was. */
  method TakeOver(node: ObjNode, first: ObjNode)
    requires node != first && ChainedOk(node) && node.links != [] && first == node.links[0] && node !in node.links
    modifies node`data, node`chain, node`content, node`firstLink, node`links, node.links`target
    modifies first`kind, first`data, first`target, first`size, first`protection, first`chain, first`content, first`links
    ensures AttributesOf(first) == old(AttributesOf(node))
    ensures first.target == null && ChainedOk(first) && first.links == old(node.links)[1..]
    ensures node.links == [] && node.firstLink == null && node.data == null && node.chain == [] && node.content == []
    ensures forall l :: l in first.links ==> l.target == first
  {
    ghost var links := node.links;
    first.kind := node.kind;
    first.data := node.data;
    first.size := node.size;
    first.protection := node.protection;
    first.target := null;
    first.chain, first.content, first.links := node.chain, node.content, links[1..];
    node.data := null;
    node.chain, node.content := [], [];
    Retarget(links, first);
    node.firstLink := null;
    node.links := [];
    assert forall j :: 0 <= j < |first.links| ==> first.links[j] == links[j + 1];
    assert links[0].firstLink == After(links, 0);
    forall j {:trigger first.links[j].firstLink} | 0 <= j < |first.links|
      ensures first.links[j].firstLink == After(first.links, j)
    {
      assert links[j + 1].firstLink == After(links, j + 1);
    }
  }

  /** Deleting a target promotes its first link: every name still leads to the same type,
      size, protection and data. */
  method Promote(ghost nodes: set<ObjNode>, ghost root: ObjNode, node: ObjNode)
    requires TreeOk(nodes, root) && node in nodes && !node.kind.IsLink() && node.kids == [] && node.links != []
    requires node.firstLink != null
    modifies node`data, node`chain, node`content, node`firstLink, node`links, node.links`target
    modifies node.firstLink`kind, node.firstLink`data, node.firstLink`size, node.firstLink`protection
    modifies node.firstLink`chain, node.firstLink`content, node.firstLink`links
    ensures TreeOk(nodes, root) && node.links == [] && node.firstLink == null && node.data == null && node.chain == []
    ensures AttributesOf(old(node.firstLink)) == old(AttributesOf(node)) && old(node.firstLink.kind.IsLink())
    ensures forall n :: n in nodes && n != node ==> AttributesOf(Resolve(n)) == old(AttributesOf(Resolve(n)))
  {
    hide SiblingsOk, NamesOk;
    assert NodeOk(nodes, node);
    ghost var links := node.links;
    var first := node.firstLink;
    assert first in links && NodeOk(nodes, first);
    TakeOver(node, first);
    forall n {:trigger KidsOk(nodes, n)} | n in nodes
      ensures KidsOk(nodes, n)
    {
      assert old(NodeOk(nodes, n));
    }
    forall n {:trigger LinksOk(nodes, n)} | n in nodes
      ensures LinksOk(nodes, n)
    {
      assert old(NodeOk(nodes, n));
    }
    forall n {:trigger ParentOk(nodes, root, n)} | n in nodes
      ensures ParentOk(nodes, root, n)
    {
      assert old(ParentOk(nodes, root, n));
    }
    forall n | n in nodes && n != node
      ensures AttributesOf(Resolve(n)) == old(AttributesOf(Resolve(n)))
    {
      assert old(NodeOk(nodes, n)) && LinksOk(nodes, n);
      if n in links {
        assert old(Resolve(n)) == node && Resolve(n) == first;
      }
    }
  }
}
