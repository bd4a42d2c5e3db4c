/** Reserving and freeing data blocks: the bitmaps of the groups, their free counts, the
    count of the superblock, and the count of each inode. */
module Ext2Alloc {
  import opened Machine
  import opened Arithmetic
  import opened Bits
  import opened Ext2Disk
  import opened Ext2Bitmap

  // ---------------------------------------------------------------- the volume

  /** The bitmap of group `g`. */
  function Bitmap(groups: seq<Group>, disk: map<nat, Block>, g: nat): seq<Word>
  {
    if g < |groups| && groups[g].bitmap in disk
      && disk[groups[g].bitmap].Words? then disk[groups[g].bitmap].words else []
  }

  /** The free count of a group is the number of clear bits in its bitmap. */
  predicate GroupOk(geo: Geometry, groups: seq<Group>, disk: map<nat, Block>, g: nat)
    requires geo.Ok() && g < |groups|
  {
    && |Bitmap(groups, disk, g)| == geo.Pointers()
    && groups[g].freeBlocks == CountClear(Bitmap(groups, disk, g), geo.perGroup)
  }

  function SumFree(groups: seq<Group>): nat {
    if groups == [] then 0 else SumFree(groups[..|groups| - 1]) + groups[|groups| - 1].freeBlocks
  }

  /** The group and the bit of a block: (block - first_data_block) / blocks_per_group and the rest. */
  function GroupOf(geo: Geometry, block: nat): nat
    requires geo.Ok() && block >= geo.firstData
  {
    Quotient(block - geo.firstData, geo.perGroup)
  }

  function BitOf(geo: Geometry, block: nat): (k: nat)
    requires geo.Ok() && block >= geo.firstData
    ensures k < geo.perGroup
  {
    Rest(block - geo.firstData, geo.perGroup)
  }

  /** The block is one that some bitmap has a bit for. */
  predicate InGroup(geo: Geometry, groups: seq<Group>, block: nat)
    requires geo.Ok()
  {
    block >= geo.firstData && GroupOf(geo, block) < |groups|
  }

  /** A block is in use unless its bit in the bitmap of its group is clear. */
  predicate Used(geo: Geometry, groups: seq<Group>, disk: map<nat, Block>, block: nat)
    requires geo.Ok()
  {
    InGroup(geo, groups, block) ==>
      var bitmap := Bitmap(groups, disk, GroupOf(geo, block));
      BitOf(geo, block) < 32 * |bitmap| ==> Bit(bitmap, BitOf(geo, block))
  }

  predicate IsBitmap(groups: seq<Group>, block: nat) {
    exists g :: 0 <= g < |groups| && groups[g].bitmap == block
  }

  /** Every counter is exact; bitmaps, block 0 and blocks that do not exist are in use. */
  ghost predicate VolumeOk(geo: Geometry, groups: seq<Group>, freeBlocks: nat, disk: map<nat, Block>) {
    && geo.Ok()
    && (forall g {:trigger GroupOk(geo, groups, disk, g)} :: 0 <= g < |groups| ==> GroupOk(geo, groups, disk, g))
    && freeBlocks == SumFree(groups)
    && (forall g, h :: 0 <= g < h < |groups| ==> groups[g].bitmap != groups[h].bitmap)
    && (forall g :: 0 <= g < |groups| ==> Used(geo, groups, disk, groups[g].bitmap))
    && Used(geo, groups, disk, 0)
    && (forall b {:trigger Used(geo, groups, disk, b)} :: b !in disk ==> Used(geo, groups, disk, b))
    && (forall b :: b in disk ==> geo.SizeOk(disk[b]))
    && geo.firstData + geo.perGroup * |groups| < WORD
  }

  /** In the terms of the disk: a block has the bit of its number in its group, counted from the first
      data block, 32 in each word of the group's bitmap and the lowest first. */
  lemma UsedIs(geo: Geometry, groups: seq<Group>, freeBlocks: nat, disk: map<nat, Block>, block: nat)
    requires VolumeOk(geo, groups, freeBlocks, disk)
    ensures InGroup(geo, groups, block) <==>
              block >= geo.firstData && Quotient(block - geo.firstData, geo.perGroup) < |groups|
    ensures InGroup(geo, groups, block) ==>
              var g, k := Quotient(block - geo.firstData, geo.perGroup), Rest(block - geo.firstData, geo.perGroup);
              && groups[g].bitmap in disk && disk[groups[g].bitmap].Words?
              && var words := disk[groups[g].bitmap].words;
              && k / 32 < |words|
              && (Used(geo, groups, disk, block) <==> words[k / 32] / Power(k % 32) % 2 == 1)
    ensures !InGroup(geo, groups, block) ==> Used(geo, groups, disk, block)
  {
    if InGroup(geo, groups, block) {
      var g, k := GroupOf(geo, block), BitOf(geo, block);
      assert GroupOk(geo, groups, disk, g);
      hide Quotient, Rest, VolumeOk, GroupOk, WordBit, Power;
      WordBitIs(Bitmap(groups, disk, g)[k / 32], k % 32);
    }
  }

  lemma {:induction false} SumFreeAt(groups: seq<Group>, g: nat)
    requires g < |groups|
    ensures SumFree(groups) >= groups[g].freeBlocks
  {
    if g < |groups| - 1 {
      SumFreeAt(groups[..|groups| - 1], g);
    }
  }

  lemma {:induction false} SumFreeChange(groups: seq<Group>, g: nat, group: Group)
    requires g < |groups|
    ensures SumFree(groups[g := group]) == SumFree(groups) - groups[g].freeBlocks + group.freeBlocks
  {
    var less := groups[..|groups| - 1];
    if g < |groups| - 1 {
      SumFreeChange(less, g, group);
      assert groups[g := group][..|groups| - 1] == less[g := group];
    } else {
      assert groups[g := group][..|groups| - 1] == less;
    }
  }

  lemma {:induction false} SumFreePositive(groups: seq<Group>)
    requires SumFree(groups) > 0
    ensures exists g :: 0 <= g < |groups| && groups[g].freeBlocks > 0
  {
    var last := |groups| - 1;
    if groups[last].freeBlocks == 0 {
      SumFreePositive(groups[..last]);
      var g :| 0 <= g < last && groups[..last][g].freeBlocks > 0;
      assert groups[g].freeBlocks > 0;
    }
  }

  // ---------------------------------------------------------------- FindBlockGroup

  predicate Qualifies(group: Group, forInode: bool, forBlock: bool) {
    (!forInode || group.freeInodes > 0) && (!forBlock || group.freeBlocks > 0)
  }

  /** The better of two groups is the nearer one, on ties the lower. */
  predicate NotBetter(parent: nat, h: nat, k: nat) {
    var dh, dk := if h < parent then parent - h else h - parent, if k < parent then parent - k else k - parent;
    dk < dh || (dk == dh && k <= h)
  }

  /** FindBlockGroup: the nearest group that qualifies, or -1 (NULL) if there is none. */
  method FindBlockGroup(v: Volume, parent: nat, forInode: bool, forBlock: bool) returns (k: int)
    requires parent < |v.groups|
    modifies v`fileErr
    ensures k == -1 || 0 <= k < |v.groups|
    ensures k == -1 <==> forall h :: 0 <= h < |v.groups| ==> !Qualifies(v.groups[h], forInode, forBlock)
    ensures k >= 0 ==> Qualifies(v.groups[k], forInode, forBlock)
    ensures k >= 0 ==> forall h :: 0 <= h < |v.groups| && Qualifies(v.groups[h], forInode, forBlock) ==>
              NotBetter(parent, h, k)
    ensures v.fileErr == if k == -1 then DiskFull else old(v.fileErr)
  {
    var lgroup, rgroup: int := parent, parent;
    var lvalid, rvalid := true, false;
    while true
      invariant lgroup <= parent <= rgroup && rgroup - parent == parent - lgroup
      invariant lvalid <==> lgroup >= 0
      invariant rvalid <==> rgroup < |v.groups| && lgroup < parent
      invariant lvalid || rvalid
      invariant forall h :: 0 <= h < |v.groups| && lgroup < h < rgroup ==> !Qualifies(v.groups[h], forInode, forBlock)
      decreases |v.groups| + parent - rgroup + (if lvalid || rvalid then 1 else 0), |v.groups|
    {
      if lvalid && (!forInode || v.groups[lgroup].freeInodes > 0) && (!forBlock || v.groups[lgroup].freeBlocks > 0) {
        return lgroup;
      }
      if rvalid && (!forInode || v.groups[rgroup].freeInodes > 0) && (!forBlock || v.groups[rgroup].freeBlocks > 0) {
        return rgroup;
      }
      lgroup := lgroup - 1;
      lvalid := lgroup >= 0;
      rgroup := rgroup + 1;
      rvalid := rgroup < |v.groups|;
      if !(lvalid || rvalid) {
        break;
      }
    }
    v.fileErr := DiskFull;
    return -1;
  }

  // ---------------------------------------------------------------- one bit and the counters

  /** The disk with the bit of `block` set or cleared. */
  function DiskWith(geo: Geometry, groups: seq<Group>, disk: map<nat, Block>, block: nat, on: bool): map<nat, Block>
    requires geo.Ok() && InGroup(geo, groups, block)
  {
    var g := GroupOf(geo, block);
    if BitOf(geo, block) < 32 * |Bitmap(groups, disk, g)| then
      disk[groups[g].bitmap := Words(PutBit(Bitmap(groups, disk, g), BitOf(geo, block), on))]
    else
      disk
  }

  /** No block but the bitmap of its group changes, and in that one no other bit. */
  lemma DiskWithIs(geo: Geometry, groups: seq<Group>, freeBlocks: nat, disk: map<nat, Block>, block: nat, on: bool)
    requires VolumeOk(geo, groups, freeBlocks, disk) && InGroup(geo, groups, block)
    ensures var g, disk' := GroupOf(geo, block), DiskWith(geo, groups, disk, block, on);
            && disk'.Keys == disk.Keys
            && (forall b :: b in disk && b != groups[g].bitmap ==> disk'[b] == disk[b])
            && |Bitmap(groups, disk', g)| == |Bitmap(groups, disk, g)|
            && (forall j :: 0 <= j < 32 * |Bitmap(groups, disk, g)| ==>
                  Bit(Bitmap(groups, disk', g), j)
                  == if j == BitOf(geo, block) then on else Bit(Bitmap(groups, disk, g), j))
  {
    var g := GroupOf(geo, block);
    BitIndexFits(geo, groups, freeBlocks, disk, block);
    forall j | 0 <= j < 32 * |Bitmap(groups, disk, g)|
      ensures Bit(PutBit(Bitmap(groups, disk, g), BitOf(geo, block), on), j) ==
              if j == BitOf(geo, block) then on else Bit(Bitmap(groups, disk, g), j)
    {
      PutBitAt(Bitmap(groups, disk, g), BitOf(geo, block), on, j);
    }
  }

  /** The groups with the free count of the group of `block` one lower or one higher. */
  function GroupsWith(geo: Geometry, groups: seq<Group>, block: nat, on: bool): (r: seq<Group>)
    requires geo.Ok() && InGroup(geo, groups, block)
    ensures |r| == |groups|
    ensures forall g :: 0 <= g < |r| ==> r[g].bitmap == groups[g].bitmap && r[g].freeInodes == groups[g].freeInodes
  {
    var g := GroupOf(geo, block);
    var free := groups[g].freeBlocks;
    groups[g := groups[g].(freeBlocks := if !on then free + 1 else if free > 0 then free - 1 else 0)]
  }

  lemma BitIndexFits(geo: Geometry, groups: seq<Group>, freeBlocks: nat, disk: map<nat, Block>, block: nat)
    requires VolumeOk(geo, groups, freeBlocks, disk) && InGroup(geo, groups, block)
    ensures BitOf(geo, block) < geo.perGroup <= 32 * |Bitmap(groups, disk, GroupOf(geo, block))|
  {
    assert GroupOk(geo, groups, disk, GroupOf(geo, block));
  }

  /** Blocks are numbered by their group and their bit. */
  lemma SameBlock(geo: Geometry, a: nat, b: nat)
    requires geo.Ok() && a >= geo.firstData && b >= geo.firstData
    requires GroupOf(geo, a) == GroupOf(geo, b) && BitOf(geo, a) == BitOf(geo, b)
    ensures a == b
  {
    QuotientAndRest(a - geo.firstData, geo.perGroup);
    QuotientAndRest(b - geo.firstData, geo.perGroup);
  }

  /** Which blocks are in use changes for the one block. */
  lemma UsedWith(geo: Geometry, groups: seq<Group>, freeBlocks: nat, disk: map<nat, Block>, block: nat, on: bool,
                 groups': seq<Group>, b: nat)
    requires VolumeOk(geo, groups, freeBlocks, disk) && InGroup(geo, groups, block)
    requires |groups'| == |groups| && forall g :: 0 <= g < |groups| ==> groups'[g].bitmap == groups[g].bitmap
    ensures Used(geo, groups', DiskWith(geo, groups, disk, block, on), b) == if b == block
              then on else Used(geo, groups, disk, b)
  {
    var g, k := GroupOf(geo, block), BitOf(geo, block);
    BitIndexFits(geo, groups, freeBlocks, disk, block);
    if InGroup(geo, groups, b) {
      BitIndexFits(geo, groups, freeBlocks, disk, b);
      var h, j := GroupOf(geo, b), BitOf(geo, b);
      assert h != g ==> groups[h].bitmap != groups[g].bitmap;
      if h == g {
        PutBitAt(Bitmap(groups, disk, g), k, on, j);
        if j == k {
          SameBlock(geo, b, block);
        }
      }
    }
  }

  /** Setting or clearing a bit together with the two counters keeps the volume consistent. */
  lemma VolumeWith(geo: Geometry, groups: seq<Group>, freeBlocks: nat, disk: map<nat, Block>, block: nat, on: bool)
    requires VolumeOk(geo, groups, freeBlocks, disk) && InGroup(geo, groups, block)
    requires Used(geo, groups, disk, block) != on
    requires !on ==> block != 0 && !IsBitmap(groups, block) && block in disk
    ensures on ==> freeBlocks > 0 && groups[GroupOf(geo, block)].freeBlocks > 0
    ensures VolumeOk(geo, GroupsWith(geo, groups, block, on), freeBlocks + (if on then -1 else 1),
                     DiskWith(geo, groups, disk, block, on))
  {
    var g, k := GroupOf(geo, block), BitOf(geo, block);
    var bitmap := Bitmap(groups, disk, g);
    assert GroupOk(geo, groups, disk, g);
    BitIndexFits(geo, groups, freeBlocks, disk, block);
    CountIsExact(bitmap, geo.perGroup);
    SumFreeAt(groups, g);
    CountAfterPut(bitmap, k, on, geo.perGroup);
    var groups', disk' := GroupsWith(geo, groups, block, on), DiskWith(geo, groups, disk, block, on);
    SumFreeChange(groups, g, groups'[g]);
    forall h {:trigger GroupOk(geo, groups', disk', h)} | 0 <= h < |groups'|
      ensures GroupOk(geo, groups', disk', h)
    {
      assert GroupOk(geo, groups, disk, h);
      assert h != g ==> groups[h].bitmap != groups[g].bitmap;
    }
    forall b {:trigger Used(geo, groups', disk', b)}
      ensures Used(geo, groups', disk', b) == if b == block then on else Used(geo, groups, disk, b)
    {
      UsedWith(geo, groups, freeBlocks, disk, block, on, groups', b);
    }
  }

  // ---------------------------------------------------------------- ReserveDataBlock, FreeDataBlock

  /** The 512-byte sectors of `n` blocks. */
  function Sectors(geo: Geometry, n: nat): nat {
    if n == 0 then 0 else Sectors(geo, n - 1) + geo.blockSize / 512
  }

  lemma {:induction false} SectorsAre(geo: Geometry, n: nat)
    ensures Sectors(geo, n) == Times(geo.blockSize / 512, n)
  {
    if n > 0 {
      SectorsAre(geo, n - 1);
    }
  }

  function Zeros(geo: Geometry): (b: Block)
    ensures b.Words? && |b.words| == geo.blockSize / 4 && forall k :: 0 <= k < |b.words| ==> b.words[k] == 0
  {
    Words(seq(geo.Pointers(), _ => 0))
  }

  /** Block numbers fit in 32 bits. */
  lemma BlockFits(geo: Geometry, groups: seq<Group>, freeBlocks: nat, disk: map<nat, Block>, block: nat)
    requires VolumeOk(geo, groups, freeBlocks, disk) && InGroup(geo, groups, block)
    ensures block < WORD
  {
    var g := GroupOf(geo, block);
    QuotientAndRest(block - geo.firstData, geo.perGroup);
    TimesGrows(geo.perGroup, g + 1, |groups|);
  }

  function BlockNumber(geo: Geometry, g: nat, k: nat): nat {
    geo.perGroup * g + k + geo.firstData
  }

  lemma BlockAt(geo: Geometry, groups: seq<Group>, g: nat, k: nat)
    requires geo.Ok() && g < |groups| && k < geo.perGroup
    ensures var block := BlockNumber(geo, g, k);
            InGroup(geo, groups, block) && GroupOf(geo, block) == g && BitOf(geo, block) == k
  {
    QuotientOf(g, k, geo.perGroup);
  }

  /** A free block of a group with a free count above 0. */
  lemma FreeBitExists(geo: Geometry, groups: seq<Group>, freeBlocks: nat, disk: map<nat, Block>, g: nat)
    requires VolumeOk(geo, groups, freeBlocks, disk) && g < |groups| && groups[g].freeBlocks > 0
    ensures 32 * |Bitmap(groups, disk, g)| == 8 * geo.blockSize >= geo.perGroup
    ensures exists k :: 0 <= k < geo.perGroup && !Bit(Bitmap(groups, disk, g), k)
  {
    assert GroupOk(geo, groups, disk, g);
    CountIsExact(Bitmap(groups, disk, g), geo.perGroup);
  }

  /** What the search of ReserveDataBlock comes up with: a free block of the nearest group
      that has one. The exit with ERROR_DISK_CORRUPTED is never taken. */
  method FindFreeBlock(v: Volume, parent: nat) returns (g: nat, block: nat)
    requires VolumeOk(v.geo, v.groups, v.freeBlocks, v.disk) && v.freeBlocks > 0 && parent < |v.groups|
    modifies v`fileErr
    ensures v.fileErr == old(v.fileErr)
    ensures g < |v.groups| && v.groups[g].freeBlocks > 0
    ensures forall h :: 0 <= h < |v.groups| && v.groups[h].freeBlocks > 0 ==> NotBetter(parent, h, g)
    ensures InGroup(v.geo, v.groups, block) && GroupOf(v.geo, block) == g && !Used(v.geo, v.groups, v.disk, block)
    ensures block != 0 && block in v.disk
  {
    SumFreePositive(v.groups);
    ghost var some :| 0 <= some < |v.groups| && v.groups[some].freeBlocks > 0;
    assert Qualifies(v.groups[some], false, true);
    var found := FindBlockGroup(v, parent, false, true);
    assert Qualifies(v.groups[some], false, true) && found != -1;
    g := found;
    FreeBitExists(v.geo, v.groups, v.freeBlocks, v.disk, g);
    var blbit := FindFirstUnsetBit(v.disk[v.groups[g].bitmap].words);
    if blbit == -1 || blbit >= v.geo.perGroup {
      assert false;  // the exit with ERROR_DISK_CORRUPTED
    }
    block := BlockNumber(v.geo, g, blbit);
    BlockAt(v.geo, v.groups, g, blbit);
  }

  /** The new block is cleared before its bit is set. */
  method ClearBlock(v: Volume, block: nat)
    requires VolumeOk(v.geo, v.groups, v.freeBlocks, v.disk) && !Used(v.geo, v.groups, v.disk, block)
    modifies v`disk
    ensures VolumeOk(v.geo, v.groups, v.freeBlocks, v.disk) && v.disk == old(v.disk)[block := Zeros(v.geo)]
    ensures forall b {:trigger Used(v.geo, v.groups, v.disk, b)} ::
              Used(v.geo, v.groups, v.disk, b) == old(Used(v.geo, v.groups, v.disk, b))
  {
    ClearKeepsVolume(v.geo, v.groups, v.freeBlocks, v.disk, block);
    v.disk := v.disk[block := Zeros(v.geo)];
  }

  /** The bit of a free block is set, and the counters follow. */
  method MarkUsed(v: Volume, inode: Inode, block: nat)
    requires VolumeOk(v.geo, v.groups, v.freeBlocks, v.disk) && InGroup(v.geo, v.groups, block)
    requires !Used(v.geo, v.groups, v.disk, block)
    modifies v`groups, v`freeBlocks, v`disk, inode`blocks
    ensures VolumeOk(v.geo, v.groups, v.freeBlocks, v.disk)
    ensures v.groups == GroupsWith(v.geo, old(v.groups), block, true) && v.freeBlocks == old(v.freeBlocks) - 1
    ensures v.disk == DiskWith(v.geo, old(v.groups), old(v.disk), block, true)
    ensures forall b {:trigger Used(v.geo, v.groups, v.disk, b)} ::
              Used(v.geo, v.groups, v.disk, b) <==> b == block || Used(v.geo, old(v.groups), old(v.disk), b)
    ensures inode.blocks == old(inode.blocks) + v.geo.blockSize / 512
  {
    BitIndexFits(v.geo, v.groups, v.freeBlocks, v.disk, block);
    VolumeWith(v.geo, v.groups, v.freeBlocks, v.disk, block, true);
    ghost var groups' := GroupsWith(v.geo, v.groups, block, true);
    ghost var disk' := DiskWith(v.geo, v.groups, v.disk, block, true);
    forall b {:trigger Used(v.geo, groups', disk', b)}
      ensures Used(v.geo, groups', disk', b) <==> b == block || Used(v.geo, v.groups, v.disk, b)
    {
      UsedWith(v.geo, v.groups, v.freeBlocks, v.disk, block, true, groups', b);
    }
    v.disk := DiskWith(v.geo, v.groups, v.disk, block, true);
    v.groups := GroupsWith(v.geo, v.groups, block, true);
    v.freeBlocks := v.freeBlocks - 1;
    inode.blocks := inode.blocks + v.geo.blockSize / 512;
  }

  /** ReserveDataBlock. A block that was free is handed out and marked, and nothing else
      changes but the counters and, with `clear`, the content of the block. */
  method ReserveDataBlock(v: Volume, group: nat, inode: Inode, clear: bool) returns (block: nat)
    requires VolumeOk(v.geo, v.groups, v.freeBlocks, v.disk) && v.freeBlocks > 0 && group < |v.groups|
    modifies v`groups, v`freeBlocks, v`disk, v`fileErr, inode`blocks
    ensures VolumeOk(v.geo, v.groups, v.freeBlocks, v.disk)
    ensures block != 0 && block < WORD && !Used(v.geo, old(v.groups), old(v.disk), block)
    ensures InGroup(v.geo, v.groups, block) && block in old(v.disk)
    ensures forall h :: 0 <= h < |old(v.groups)| && old(v.groups)[h].freeBlocks > 0 ==>
              NotBetter(group, h, GroupOf(v.geo, block))
    ensures GroupOf(v.geo, block) == group <==> old(v.groups)[group].freeBlocks > 0
    ensures v.groups == GroupsWith(v.geo, old(v.groups), block, true) && v.freeBlocks == old(v.freeBlocks) - 1
    ensures v.disk
              == DiskWith(v.geo, old(v.groups), if clear then old(v.disk)[block := Zeros(v.geo)] else old(v.disk),
                          block, true)
    ensures forall b {:trigger Used(v.geo, v.groups, v.disk, b)} ::
              Used(v.geo, v.groups, v.disk, b) <==> b == block || Used(v.geo, old(v.groups), old(v.disk), b)
    ensures inode.blocks == old(inode.blocks) + v.geo.blockSize / 512
    ensures v.fileErr == old(v.fileErr)
  {
    hide Zeros, DiskWith, Qualifies, VolumeOk, Used;
    var g;
    g, block := FindFreeBlock(v, group);
    BlockFits(v.geo, v.groups, v.freeBlocks, v.disk, block);
    if clear {
      ClearBlock(v, block);
    }
    MarkUsed(v, inode, block);
  }

  /** Overwriting a block that is not a bitmap does not concern the allocator. */
  lemma OverwriteKeepsVolume(geo: Geometry, groups: seq<Group>, freeBlocks: nat, disk: map<nat, Block>, block: nat,
                             content: Block)
    requires VolumeOk(geo, groups, freeBlocks, disk) && !IsBitmap(groups, block) && geo.SizeOk(content)
    ensures VolumeOk(geo, groups, freeBlocks, disk[block := content])
    ensures forall b {:trigger Used(geo, groups, disk[block := content], b)} ::
              Used(geo, groups, disk[block := content], b) == Used(geo, groups, disk, b)
  {
    var disk' := disk[block := content];
    forall g | 0 <= g < |groups|
      ensures Bitmap(groups, disk', g) == Bitmap(groups, disk, g)
    {
      assert groups[g].bitmap != block;
    }
    forall g {:trigger GroupOk(geo, groups, disk', g)} | 0 <= g < |groups|
      ensures GroupOk(geo, groups, disk', g)
    {
      assert GroupOk(geo, groups, disk, g);
    }
    forall b {:trigger Used(geo, groups, disk', b)}
      ensures Used(geo, groups, disk', b) == Used(geo, groups, disk, b)
    {
    }
  }

  lemma ClearKeepsVolume(geo: Geometry, groups: seq<Group>, freeBlocks: nat, disk: map<nat, Block>, block: nat)
    requires VolumeOk(geo, groups, freeBlocks, disk) && !Used(geo, groups, disk, block)
    ensures VolumeOk(geo, groups, freeBlocks, disk[block := Zeros(geo)])
    ensures forall b {:trigger Used(geo, groups, disk[block := Zeros(geo)], b)} ::
              Used(geo, groups, disk[block := Zeros(geo)], b) == Used(geo, groups, disk, b)
  {
    OverwriteKeepsVolume(geo, groups, freeBlocks, disk, block, Zeros(geo));
  }

  /** The bit that FreeDataBlock clears is one of its group exactly when the block belongs to
      that group. The callers pass the group of the inode, from which ReserveDataBlock takes
      the block only while it has a free one. */
  lemma FreesOwnBit(geo: Geometry, block: nat, group: nat)
    requires geo.Ok() && block >= geo.firstData
    ensures 0 <= block - geo.firstData - geo.perGroup * group < geo.perGroup <==> GroupOf(geo, block) == group
  {
    var x := block - geo.firstData;
    QuotientAndRest(x, geo.perGroup);
    if 0 <= x - geo.perGroup * group < geo.perGroup {
      QuotientOf(group, x - geo.perGroup * group, geo.perGroup);
    }
  }

  /** What FreeDataBlock leaves when it is given `group`: the counters are one up, and in the bitmap
      of that group the bit is clear. A bit that is none of the group's own lies outside its part of
      the bitmap, and nothing is said of what is there. */
  ghost predicate FreedThrough(geo: Geometry, groups: seq<Group>, disk: map<nat, Block>, block: nat, group: nat,
                               groups': seq<Group>, disk': map<nat, Block>)
    requires geo.Ok() && block >= geo.firstData && group < |groups|
  {
    var k := block - geo.firstData - geo.perGroup * group;
    && groups' == groups[group := groups[group].(freeBlocks := groups[group].freeBlocks + 1)]
    && (if 0 <= k < geo.perGroup then
          groups[group].bitmap in disk && disk[groups[group].bitmap].Words? && k < 32 * |Bitmap(groups, disk, group)|
          && disk' == disk[groups[group].bitmap := Words(PutBit(Bitmap(groups, disk, group), k, false))]
        else SameBits(Bitmap(groups, disk, group), Bitmap(groups', disk', group), geo.perGroup))
  }

  /** The first bits of two bitmaps are the same. */
  predicate SameBits(a: seq<Word>, b: seq<Word>, n: nat) {
    n <= 32 * |a| && |a| == |b| && forall k :: 0 <= k < n ==> Bit(a, k) == Bit(b, k)
  }

  lemma {:induction false} SameBitsCount(a: seq<Word>, b: seq<Word>, n: nat)
    requires SameBits(a, b, n)
    ensures CountClear(a, n) == CountClear(b, n)
  {
    if n > 0 {
      SameBitsCount(a, b, n - 1);
    }
  }

  /** A block that is freed through a group leaves a consistent volume exactly when it belongs to
      that group. */
  lemma FreedThroughIff(geo: Geometry, groups: seq<Group>, freeBlocks: nat, disk: map<nat, Block>, block: nat,
                        group: nat, groups': seq<Group>, disk': map<nat, Block>)
    requires VolumeOk(geo, groups, freeBlocks, disk) && InGroup(geo, groups, block) && group < |groups|
    requires Used(geo, groups, disk, block) && block != 0 && !IsBitmap(groups, block) && block in disk
    requires FreedThrough(geo, groups, disk, block, group, groups', disk')
    ensures VolumeOk(geo, groups', freeBlocks + 1, disk') <==> GroupOf(geo, block) == group
  {
    FreesOwnBit(geo, block, group);
    assert GroupOk(geo, groups, disk, group);
    if GroupOf(geo, block) == group {
      QuotientAndRest(block - geo.firstData, geo.perGroup);
      assert block - geo.firstData - geo.perGroup * group == BitOf(geo, block);
      VolumeWith(geo, groups, freeBlocks, disk, block, false);
    } else {
      SameBitsCount(Bitmap(groups, disk, group), Bitmap(groups', disk', group), geo.perGroup);
      assert !GroupOk(geo, groups', disk', group);
    }
  }

  /** FreeDataBlock, through the group that the block belongs to. */
  method FreeDataBlock(v: Volume, group: nat, inode: Inode, block: nat)
    requires VolumeOk(v.geo, v.groups, v.freeBlocks, v.disk) && InGroup(v.geo, v.groups, block)
    requires group == GroupOf(v.geo, block) && Used(v.geo, v.groups, v.disk, block)
    requires block != 0 && !IsBitmap(v.groups, block) && block in v.disk
    modifies v`groups, v`freeBlocks, v`disk, inode`blocks
    ensures VolumeOk(v.geo, v.groups, v.freeBlocks, v.disk)
    ensures v.groups == GroupsWith(v.geo, old(v.groups), block, false) && v.freeBlocks == old(v.freeBlocks) + 1
    ensures v.disk == DiskWith(v.geo, old(v.groups), old(v.disk), block, false)
    ensures forall b :: b in old(v.disk) && !IsBitmap(v.groups, b) ==> b in v.disk && v.disk[b] == old(v.disk)[b]
    ensures forall b {:trigger Used(v.geo, v.groups, v.disk, b)} ::
              Used(v.geo, v.groups, v.disk, b) <==> b != block && Used(v.geo, old(v.groups), old(v.disk), b)
    ensures inode.blocks == old(inode.blocks) - v.geo.blockSize / 512
  {
    var blbit := block - v.geo.firstData - v.geo.perGroup * group;
    QuotientAndRest(block - v.geo.firstData, v.geo.perGroup);
    assert blbit == BitOf(v.geo, block);
    BitIndexFits(v.geo, v.groups, v.freeBlocks, v.disk, block);
    VolumeWith(v.geo, v.groups, v.freeBlocks, v.disk, block, false);
    ghost var groups' := GroupsWith(v.geo, v.groups, block, false);
    ghost var disk' := DiskWith(v.geo, v.groups, v.disk, block, false);
    forall b {:trigger Used(v.geo, groups', disk', b)}
      ensures Used(v.geo, groups', disk', b) <==> b != block && Used(v.geo, v.groups, v.disk, b)
    {
      UsedWith(v.geo, v.groups, v.freeBlocks, v.disk, block, false, groups', b);
    }
    v.disk := v.disk[v.groups[group].bitmap := Words(PutBit(v.disk[v.groups[group].bitmap].words, blbit, false))];
    v.groups := v.groups[group := v.groups[group].(freeBlocks := v.groups[group].freeBlocks + 1)];
    v.freeBlocks := v.freeBlocks + 1;
    inode.blocks := inode.blocks - v.geo.blockSize / 512;
  }
}
