/** The blocks of a file: twelve direct ones and three trees of pointer blocks. A place in the
    tree is the path of indices that leads to it. */
module Ext2Tree {
  import opened Machine
  import opened Ext2Disk
  import opened Ext2Bitmap
  import opened Ext2Alloc

  type Place = seq<nat>

  /** The length of the paths that start at entry `k` of the inode. */
  function Depth(k: nat): nat {
    if k < EXT2_DIRECT_BLOCKS then 1 else k - EXT2_DIRECT_BLOCKS + 2
  }

  predicate IsPlace(p: nat, pl: Place) {
    pl != [] && pl[0] < 15 && |pl| <= Depth(pl[0]) && forall i :: 1 <= i < |pl| ==> pl[i] < p
  }

  /** A place for a block of pointers, not for data. */
  predicate Inner(pl: Place)
    requires pl != []
  {
    |pl| < Depth(pl[0])
  }

  function Parent(pl: Place): Place
    requires pl != []
  {
    pl[..|pl| - 1]
  }

  function Last(pl: Place): nat
    requires pl != []
  {
    pl[|pl| - 1]
  }

  /** What the allocator and the tree of one inode work on. */
  datatype Image = Image(groups: seq<Group>, freeBlocks: nat, disk: map<nat, Block>, ib: seq<Word>)

  /** Entry `k` of the pointer block `b`; there are no entries in block 0. */
  function Pointer(disk: map<nat, Block>, b: nat, k: nat): Word {
    if b != 0 && b in disk && disk[b].Words? && k < |disk[b].words| then disk[b].words[k] else 0
  }

  /** The block at a place, or 0. */
  function At(m: Image, pl: Place): Word
    decreases |pl|
  {
    if pl == [] then 0
    else if |pl| == 1 then (if pl[0] < |m.ib| then m.ib[pl[0]] else 0)
    else Pointer(m.disk, At(m, Parent(pl)), Last(pl))
  }

  /** Blocks in the tree are in use, and blocks of pointers hold words. */
  predicate PlaceOk(geo: Geometry, m: Image, pl: Place)
    requires geo.Ok() && pl != []
  {
    At(m, pl) != 0 ==>
      var b := At(m, pl);
      Used(geo, m.groups, m.disk, b) && !IsBitmap(m.groups, b) && b in m.disk && (Inner(pl) ==> m.disk[b].Words?)
  }

  /** Different places hold different blocks. */
  predicate PlacesDiffer(m: Image, pl: Place, q: Place) {
    At(m, pl) != 0 && At(m, pl) == At(m, q) ==> pl == q
  }

  ghost predicate TreeOk(geo: Geometry, m: Image)
    requires geo.Ok()
  {
    && |m.ib| == 15
    && (forall pl {:trigger PlaceOk(geo, m, pl)} :: IsPlace(geo.Pointers(), pl) ==> PlaceOk(geo, m, pl))
    && (forall pl, q {:trigger PlacesDiffer(m, pl, q)} :: IsPlace(geo.Pointers(), pl) && IsPlace(geo.Pointers(), q) ==>
          PlacesDiffer(m, pl, q))
  }

  ghost predicate ImageOk(geo: Geometry, m: Image) {
    VolumeOk(geo, m.groups, m.freeBlocks, m.disk) && TreeOk(geo, m)
  }

  lemma ParentIsPlace(p: nat, pl: Place)
    requires IsPlace(p, pl) && |pl| > 1
    ensures IsPlace(p, Parent(pl)) && Inner(Parent(pl)) && Last(pl) < p
  {
  }

  // ---------------------------------------------------------------- setting one pointer

  /** `m'` is `m` with block `b` entered at `pl`, where there was none. */
  ghost predicate Entered(geo: Geometry, m: Image, pl: Place, b: Word, m': Image)
    requires geo.Ok() && |m.ib| == 15 && IsPlace(geo.Pointers(), pl)
  {
    && m'.ib == (if |pl| == 1 then m.ib[pl[0] := b] else m.ib)
    && (forall q {:trigger BlockKept(m, q, m')} :: IsPlace(geo.Pointers(), q) && (|pl| == 1 || q != Parent(pl)) ==>
          BlockKept(m, q, m'))
    && (|pl| > 1 ==>
          var a := At(m, Parent(pl));
          a in m'.disk && m'.disk[a].Words? && |m'.disk[a].words| == geo.Pointers()
          && forall k :: 0 <= k < geo.Pointers() ==>
            Pointer(m'.disk, a, k) == if k == Last(pl) then b else Pointer(m.disk, a, k))
    && (Inner(pl) ==> b in m'.disk && m'.disk[b] == Zeros(geo))
  }

  /** The content of the block at `q` is the same in both. */
  predicate BlockKept(m: Image, q: Place, m': Image) {
    At(m, q) != 0 && At(m, q) in m.disk ==> At(m, q) in m'.disk && m'.disk[At(m, q)] == m.disk[At(m, q)]
  }

  /** Every place holds what it held, but for the one that is filled. */
  lemma {:induction false} EnteredAt(geo: Geometry, m: Image, pl: Place, b: Word, m': Image, q: Place)
    requires geo.Ok() && TreeOk(geo, m) && IsPlace(geo.Pointers(), pl) && IsPlace(geo.Pointers(), q)
    requires At(m, pl) == 0 && (|pl| > 1 ==> At(m, Parent(pl)) != 0)
    requires b != 0 && Entered(geo, m, pl, b, m')
    ensures At(m', q) == if q == pl then b else At(m, q)
    decreases |q|
  {
    if |q| > 1 {
      var p, r := geo.Pointers(), Parent(q);
      ParentIsPlace(p, q);
      EnteredAt(geo, m, pl, b, m', r);
      assert q == r + [Last(q)] && pl == Parent(pl) + [Last(pl)];
      if r != pl && (|pl| == 1 || r != Parent(pl)) {
        assert BlockKept(m, r, m') && PlaceOk(geo, m, r);
      }
    }
  }

  /** Block `b` was free and is now in use; nothing else changed for the allocator. */
  ghost predicate NewlyUsed(geo: Geometry, m: Image, b: nat, m': Image)
    requires geo.Ok()
  {
    && !Used(geo, m.groups, m.disk, b) && b in m'.disk && !IsBitmap(m'.groups, b)
    && (forall c {:trigger Used(geo, m'.groups, m'.disk, c)} :: Used(geo, m'.groups, m'.disk, c) <==>
          c == b || Used(geo, m.groups, m.disk, c))
    && (forall c {:trigger IsBitmap(m'.groups, c)} :: IsBitmap(m'.groups, c) ==> IsBitmap(m.groups, c))
  }

  lemma EnteredPlaceOk(geo: Geometry, m: Image, pl: Place, b: Word, m': Image, q: Place)
    requires geo.Ok() && TreeOk(geo, m) && IsPlace(geo.Pointers(), pl) && IsPlace(geo.Pointers(), q)
    requires At(m, pl) == 0 && (|pl| > 1 ==> At(m, Parent(pl)) != 0)
    requires b != 0 && NewlyUsed(geo, m, b, m') && Entered(geo, m, pl, b, m')
    ensures PlaceOk(geo, m', q)
  {
    EnteredAt(geo, m, pl, b, m', q);
    assert PlaceOk(geo, m, q);
    if |pl| == 1 || q != Parent(pl) {
      assert BlockKept(m, q, m');
    }
  }

  lemma EnteredDiffer(geo: Geometry, m: Image, pl: Place, b: Word, m': Image, q: Place, r: Place)
    requires geo.Ok() && TreeOk(geo, m) && IsPlace(geo.Pointers(), pl) && IsPlace(geo.Pointers(), q)
    requires IsPlace(geo.Pointers(), r)
    requires At(m, pl) == 0 && (|pl| > 1 ==> At(m, Parent(pl)) != 0)
    requires b != 0 && NewlyUsed(geo, m, b, m') && Entered(geo, m, pl, b, m')
    ensures PlacesDiffer(m', q, r)
  {
    EnteredAt(geo, m, pl, b, m', q);
    EnteredAt(geo, m, pl, b, m', r);
    assert PlacesDiffer(m, q, r) && PlaceOk(geo, m, q) && PlaceOk(geo, m, r);
  }

  /** Filling a place with a block that was free keeps the tree consistent. */
  lemma EnteredOk(geo: Geometry, m: Image, pl: Place, b: Word, m': Image)
    requires geo.Ok() && TreeOk(geo, m) && IsPlace(geo.Pointers(), pl)
    requires At(m, pl) == 0 && (|pl| > 1 ==> At(m, Parent(pl)) != 0)
    requires b != 0 && NewlyUsed(geo, m, b, m') && Entered(geo, m, pl, b, m')
    ensures TreeOk(geo, m')
    ensures forall q {:trigger At(m', q)} :: IsPlace(geo.Pointers(), q) ==> At(m', q) == if q == pl then b else At(m, q)
  {
    var p := geo.Pointers();
    forall q {:trigger At(m', q)} | IsPlace(p, q)
      ensures At(m', q) == if q == pl then b else At(m, q)
    {
      EnteredAt(geo, m, pl, b, m', q);
    }
    forall q {:trigger PlaceOk(geo, m', q)} | IsPlace(p, q)
      ensures PlaceOk(geo, m', q)
    {
      EnteredPlaceOk(geo, m, pl, b, m', q);
    }
    forall q, r {:trigger PlacesDiffer(m', q, r)} | IsPlace(p, q) && IsPlace(p, r)
      ensures PlacesDiffer(m', q, r)
    {
      EnteredDiffer(geo, m, pl, b, m', q, r);
    }
  }

  // ---------------------------------------------------------------- growing by one place

  ghost predicate InnerBlock(geo: Geometry, m: Image, b: nat) {
    b != 0 && exists pl {:trigger At(m, pl)} :: IsPlace(geo.Pointers(), pl) && Inner(pl) && At(m, pl) == b
  }

  /** Blocks that this tree may hold data in, and the blocks of every other file. */
  ghost predicate Stable(geo: Geometry, m: Image, b: nat)
    requires geo.Ok()
  {
    b in m.disk && Used(geo, m.groups, m.disk, b) && !IsBitmap(m.groups, b) && !InnerBlock(geo, m, b)
  }

  ghost predicate StableKept(geo: Geometry, m: Image, m': Image)
    requires geo.Ok()
  {
    forall b {:trigger Stable(geo, m, b)} ::
      Stable(geo, m, b) ==> Stable(geo, m', b) && m'.disk[b] == m.disk[b]
  }

  /** Blocks are taken from those that were free, and no other is given up. */
  ghost predicate OnlyTaken(geo: Geometry, m: Image, m': Image)
    requires geo.Ok()
  {
    && (forall b {:trigger Used(geo, m'.groups, m'.disk, b)} :: Used(geo, m.groups, m.disk, b) ==>
          Used(geo, m'.groups, m'.disk, b))
    && (forall q {:trigger At(m', q)} :: IsPlace(geo.Pointers(), q) && At(m', q) != At(m, q) ==>
          !Used(geo, m.groups, m.disk, At(m', q)))
  }

  /** The place is filled; whatever was there before is still where it was. */
  ghost predicate Grown(geo: Geometry, m: Image, pl: Place, m': Image) {
    && ImageOk(geo, m')
    && At(m', pl) != 0
    && (At(m, pl) != 0 ==> m' == m)
    && (forall q {:trigger At(m', q)} :: IsPlace(geo.Pointers(), q) && q != pl ==> At(m', q) == At(m, q))
    && m'.freeBlocks == m.freeBlocks - (if At(m, pl) == 0 then 1 else 0)
    && |m'.groups| == |m.groups|
    && StableKept(geo, m, m') && OnlyTaken(geo, m, m')
  }

  ghost function Img(v: Volume, inode: Inode): Image
    reads v`groups, v`freeBlocks, v`disk, inode`block
  {
    Image(v.groups, v.freeBlocks, v.disk, inode.block)
  }

  /** Only bitmaps and block `b` may differ between the disks. */
  predicate OthersKept(m: Image, b: nat, m': Image) {
    forall c :: c in m.disk && c != b && !IsBitmap(m.groups, c) ==> c in m'.disk && m'.disk[c] == m.disk[c]
  }

  /** ReserveDataBlock as the tree sees it. */
  method ReserveForTree(v: Volume, group: nat, inode: Inode, clear: bool) returns (block: Word)
    requires ImageOk(v.geo, Img(v, inode)) && v.freeBlocks > 0 && group < |v.groups|
    modifies v`groups, v`freeBlocks, v`disk, v`fileErr, inode`blocks
    ensures VolumeOk(v.geo, v.groups, v.freeBlocks, v.disk) && |v.groups| == |old(v.groups)|
    ensures block != 0 && NewlyUsed(v.geo, old(Img(v, inode)), block, Img(v, inode))
    ensures OthersKept(old(Img(v, inode)), block, Img(v, inode))
    ensures clear ==> v.disk[block] == Zeros(v.geo)
    ensures v.freeBlocks == old(v.freeBlocks) - 1 && v.fileErr == old(v.fileErr)
    ensures inode.blocks == old(inode.blocks) + v.geo.blockSize / 512
  {
    ghost var groups0, disk0 := v.groups, v.disk;
    block := ReserveDataBlock(v, group, inode, clear);
    forall c {:trigger IsBitmap(v.groups, c)}
      ensures IsBitmap(v.groups, c) <==> IsBitmap(groups0, c)
    {
      SameBitmaps(groups0, v.groups, c);
    }
    assert !IsBitmap(groups0, block);
  }

  lemma SameBitmaps(groups: seq<Group>, groups': seq<Group>, c: nat)
    requires |groups| == |groups'| && forall g :: 0 <= g < |groups| ==> groups[g].bitmap == groups'[g].bitmap
    ensures IsBitmap(groups, c) <==> IsBitmap(groups', c)
  {
    if IsBitmap(groups, c) {
      var g :| 0 <= g < |groups| && groups[g].bitmap == c;
      assert groups'[g].bitmap == c;
    }
  }

  lemma KeptByOthers(geo: Geometry, m: Image, b: nat, m': Image, q: Place)
    requires geo.Ok() && TreeOk(geo, m) && IsPlace(geo.Pointers(), q)
    requires !Used(geo, m.groups, m.disk, b) && OthersKept(m, b, m')
    ensures BlockKept(m, q, m')
  {
    assert PlaceOk(geo, m, q);
  }

  /** Filling a place leaves every stable block stable. */
  lemma StableAfter(geo: Geometry, m: Image, pl: Place, b: Word, m': Image)
    requires geo.Ok() && TreeOk(geo, m) && IsPlace(geo.Pointers(), pl) && NewlyUsed(geo, m, b, m')
    requires forall q {:trigger At(m', q)} :: IsPlace(geo.Pointers(), q) ==>
               At(m', q) == if q == pl then b else At(m, q)
    requires forall c {:trigger Stable(geo, m, c)} :: Stable(geo, m, c) ==> c in m'.disk && m'.disk[c] == m.disk[c]
    ensures StableKept(geo, m, m')
  {
    forall c {:trigger Stable(geo, m, c)} | Stable(geo, m, c)
      ensures Stable(geo, m', c)
    {
      assert forall q {:trigger At(m', q)} :: IsPlace(geo.Pointers(), q) && At(m', q) == c ==> At(m, q) == c;
    }
  }

  /** The first step of a path: the entry in the inode itself. */
  method RootBlock(v: Volume, group: nat, inode: Inode, k: nat, clear: bool) returns (block: Word)
    requires ImageOk(v.geo, Img(v, inode)) && group < |v.groups| && k < 15 && clear == (k >= EXT2_DIRECT_BLOCKS)
    requires inode.block[k] == 0 ==> v.freeBlocks > 0
    modifies v`groups, v`freeBlocks, v`disk, v`fileErr, inode`blocks, inode`block
    ensures Grown(v.geo, old(Img(v, inode)), [k], Img(v, inode)) && block == At(Img(v, inode), [k])
    ensures inode.blocks == old(inode.blocks) + (if old(inode.block)[k] == 0 then v.geo.blockSize / 512 else 0)
    ensures v.fileErr == old(v.fileErr)
  {
    block := inode.block[k];
    if block != 0 {
      return;
    }
    ghost var m0 := Img(v, inode);
    block := ReserveForTree(v, group, inode, clear);
    inode.block := inode.block[k := block];
    ghost var m := Img(v, inode);
    forall q {:trigger BlockKept(m0, q, m)} | IsPlace(v.geo.Pointers(), q)
      ensures BlockKept(m0, q, m)
    {
      KeptByOthers(v.geo, m0, block, m, q);
    }
    assert Entered(v.geo, m0, [k], block, m);
    EnteredOk(v.geo, m0, [k], block, m);
    StableAfter(v.geo, m0, [k], block, m);
  }

  // ---------------------------------------------------------------- AddIndirectPointer

  /** The write of a pointer keeps the allocator's view. */
  lemma PointerWritten(geo: Geometry, groups: seq<Group>, freeBlocks: nat, disk: map<nat, Block>, a: nat,
                       words: seq<Word>)
    requires VolumeOk(geo, groups, freeBlocks, disk) && !IsBitmap(groups, a) && |words| == geo.Pointers()
    ensures VolumeOk(geo, groups, freeBlocks, disk[a := Words(words)])
    ensures forall b {:trigger Used(geo, groups, disk[a := Words(words)], b)} ::
              Used(geo, groups, disk[a := Words(words)], b) == Used(geo, groups, disk, b)
  {
    OverwriteKeepsVolume(geo, groups, freeBlocks, disk, a, Words(words));
  }

  /** The parent of a place that is filled holds words, and nothing at any other place is there. */
  lemma ParentAlone(geo: Geometry, m: Image, pl: Place, q: Place)
    requires geo.Ok() && TreeOk(geo, m) && IsPlace(geo.Pointers(), pl) && |pl| > 1 && At(m, Parent(pl)) != 0
    requires IsPlace(geo.Pointers(), q) && q != Parent(pl)
    ensures At(m, q) != At(m, Parent(pl))
  {
    ParentIsPlace(geo.Pointers(), pl);
    assert PlacesDiffer(m, Parent(pl), q);
  }

  /** AddIndirectPointer for place `pl`, whose parent is the block `indirect`. */
  method AddIndirectPointer(v: Volume, group: nat, inode: Inode, indirect: Word, index: nat, clear: bool,
                            ghost pl: Place)
    returns (block: Word)
    requires ImageOk(v.geo, Img(v, inode)) && group < |v.groups|
    requires IsPlace(v.geo.Pointers(), pl) && |pl| > 1 && index == Last(pl) && clear == Inner(pl)
    requires indirect != 0 && indirect == At(Img(v, inode), Parent(pl))
    requires At(Img(v, inode), pl) == 0 ==> v.freeBlocks > 0
    modifies v`groups, v`freeBlocks, v`disk, v`fileErr, inode`blocks
    ensures Grown(v.geo, old(Img(v, inode)), pl, Img(v, inode)) && block == At(Img(v, inode), pl)
    ensures inode.blocks == old(inode.blocks) + (if At(old(Img(v, inode)), pl) == 0 then v.geo.blockSize / 512 else 0)
    ensures v.fileErr == old(v.fileErr)
  {
    ghost var m0 := Img(v, inode);
    ParentIsPlace(v.geo.Pointers(), pl);
    assert PlaceOk(v.geo, m0, Parent(pl));
    assert v.geo.SizeOk(v.disk[indirect]);
    block := v.disk[indirect].words[index];
    if block != 0 {
      return;
    }
    block := ReserveForTree(v, group, inode, clear);
    ghost var m1 := Img(v, inode);
    KeptByOthers(v.geo, m0, block, m1, Parent(pl));
    PointerWritten(v.geo, v.groups, v.freeBlocks, v.disk, indirect, v.disk[indirect].words[index := block]);
    v.disk := v.disk[indirect := Words(v.disk[indirect].words[index := block])];
    ghost var m := Img(v, inode);
    forall q {:trigger BlockKept(m0, q, m)} | IsPlace(v.geo.Pointers(), q) && q != Parent(pl)
      ensures BlockKept(m0, q, m)
    {
      KeptByOthers(v.geo, m0, block, m1, q);
      ParentAlone(v.geo, m0, pl, q);
    }
    assert Entered(v.geo, m0, pl, block, m);
    EnteredOk(v.geo, m0, pl, block, m);
    StableAfter(v.geo, m0, pl, block, m);
  }
}
