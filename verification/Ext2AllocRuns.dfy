/** Runs of reservations and releases: what the counters count, and that no block is handed
    out while somebody owns it. */
module Ext2AllocRuns {
  import opened Ext2Disk
  import opened Ext2Alloc

  /** The volume, who owns which block, and the sector count of every inode. */
  datatype State = State(groups: seq<Group>, freeBlocks: nat, disk: map<nat, Block>,
                         owner: map<nat, Inode>, blocks: map<Inode, int>)

  datatype Op = Reserve(inode: Inode, block: nat, clear: bool) | Free(block: nat)

  /** The effects of ReserveDataBlock and FreeDataBlock. Only owned blocks are freed. */
  predicate Step(geo: Geometry, s: State, op: Op, t: State)
    requires geo.Ok()
  {
    && InGroup(geo, s.groups, op.block)
    && t.groups == GroupsWith(geo, s.groups, op.block, op.Reserve?)
    && match op
       case Reserve(inode, block, clear) =>
         && inode in s.blocks && block != 0 && block in s.disk && !Used(geo, s.groups, s.disk, block)
         && t.disk == DiskWith(geo, s.groups, if clear then s.disk[block := Zeros(geo)] else s.disk, block, true)
         && t.freeBlocks == s.freeBlocks - 1
         && t.owner == s.owner[block := inode]
         && t.blocks == s.blocks[inode := s.blocks[inode] + geo.blockSize / 512]
       case Free(block) =>
         && block in s.owner && s.owner[block] in s.blocks
         && t.disk == DiskWith(geo, s.groups, s.disk, block, false)
         && t.freeBlocks == s.freeBlocks + 1
         && t.owner == s.owner - {block}
         && t.blocks == s.blocks[s.owner[block] := s.blocks[s.owner[block]] - geo.blockSize / 512]
  }

  /** The blocks of one inode. */
  function OwnedBy(owner: map<nat, Inode>, inode: Inode): set<nat> {
    set b | b in owner && owner[b] == inode
  }

  predicate OwnerOk(geo: Geometry, s: State, b: nat)
    requires geo.Ok() && b in s.owner
  {
    && s.owner[b] in s.blocks && b != 0 && b in s.disk && InGroup(geo, s.groups, b)
    && Used(geo, s.groups, s.disk, b) && !IsBitmap(s.groups, b)
  }

  ghost predicate Ok(geo: Geometry, s: State) {
    && VolumeOk(geo, s.groups, s.freeBlocks, s.disk)
    && (forall b {:trigger OwnerOk(geo, s, b)} :: b in s.owner ==> OwnerOk(geo, s, b))
    && (forall i {:trigger s.blocks[i]} :: i in s.blocks ==> s.blocks[i] == Sectors(geo, |OwnedBy(s.owner, i)|))
  }

  /** A block that is handed out was nobody's. */
  lemma NobodyOwned(geo: Geometry, s: State, op: Op, t: State)
    requires Ok(geo, s) && Step(geo, s, op, t) && op.Reserve?
    ensures op.block !in s.owner
  {
    assert op.block in s.owner ==> OwnerOk(geo, s, op.block);
  }

  lemma OwnedMore(owner: map<nat, Inode>, b: nat, inode: Inode, i: Inode)
    requires b !in owner
    ensures |OwnedBy(owner[b := inode], i)| == |OwnedBy(owner, i)| + (if i == inode then 1 else 0)
  {
    assert OwnedBy(owner[b := inode], i) == OwnedBy(owner, i) + if i == inode then {b} else {};
  }

  lemma OwnedLess(owner: map<nat, Inode>, b: nat, i: Inode)
    requires b in owner
    ensures |OwnedBy(owner - {b}, i)| == |OwnedBy(owner, i)| - (if i == owner[b] then 1 else 0)
  {
    assert OwnedBy(owner - {b}, i) == OwnedBy(owner, i) - if i == owner[b] then {b} else {};
    assert owner[b] == i ==> b in OwnedBy(owner, i);
  }

  lemma CountsKept(geo: Geometry, s: State, op: Op, t: State)
    requires Ok(geo, s) && Step(geo, s, op, t)
    ensures forall i {:trigger t.blocks[i]} :: i in t.blocks ==> t.blocks[i] == Sectors(geo, |OwnedBy(t.owner, i)|)
  {
    if op.Reserve? {
      NobodyOwned(geo, s, op, t);
    }
    forall i | i in s.blocks
      ensures t.blocks[i] == Sectors(geo, |OwnedBy(t.owner, i)|)
    {
      assert s.blocks[i] == Sectors(geo, |OwnedBy(s.owner, i)|);
      if op.Reserve? {
        OwnedMore(s.owner, op.block, op.inode, i);
      } else {
        OwnedLess(s.owner, op.block, i);
      }
    }
  }

  /** The disk before the bit changes. */
  function Cleared(geo: Geometry, s: State, op: Op): map<nat, Block> {
    if op.Reserve? && op.clear then s.disk[op.block := Zeros(geo)] else s.disk
  }

  lemma VolumeKept(geo: Geometry, s: State, op: Op, t: State)
    requires Ok(geo, s) && Step(geo, s, op, t)
    ensures VolumeOk(geo, s.groups, s.freeBlocks, Cleared(geo, s, op)) && VolumeOk(geo, t.groups, t.freeBlocks, t.disk)
    ensures forall c {:trigger Used(geo, s.groups, s.disk, c)} ::
              Used(geo, s.groups, Cleared(geo, s, op), c) == Used(geo, s.groups, s.disk, c)
  {
    assert op.Free? ==> OwnerOk(geo, s, op.block);
    if op.Reserve? && op.clear {
      ClearKeepsVolume(geo, s.groups, s.freeBlocks, s.disk, op.block);
    }
    VolumeWith(geo, s.groups, s.freeBlocks, Cleared(geo, s, op), op.block, op.Reserve?);
  }

  lemma OwnersKept(geo: Geometry, s: State, op: Op, t: State, c: nat)
    requires Ok(geo, s) && Step(geo, s, op, t) && c in t.owner
    ensures OwnerOk(geo, t, c)
  {
    VolumeKept(geo, s, op, t);
    assert c != op.block ==> OwnerOk(geo, s, c);
    UsedWith(geo, s.groups, s.freeBlocks, Cleared(geo, s, op), op.block, op.Reserve?, t.groups, c);
    assert Used(geo, s.groups, s.disk, c) == Used(geo, s.groups, Cleared(geo, s, op), c);
  }

  lemma StepKeepsOk(geo: Geometry, s: State, op: Op, t: State)
    requires Ok(geo, s) && Step(geo, s, op, t)
    ensures Ok(geo, t)
    ensures t.freeBlocks + |t.owner| == s.freeBlocks + |s.owner|
  {
    VolumeKept(geo, s, op, t);
    forall c {:trigger OwnerOk(geo, t, c)} | c in t.owner
      ensures OwnerOk(geo, t, c)
    {
      OwnersKept(geo, s, op, t, c);
    }
    CountsKept(geo, s, op, t);
    OwnersCounted(geo, s, op, t);
  }

  lemma OwnersCounted(geo: Geometry, s: State, op: Op, t: State)
    requires Ok(geo, s) && Step(geo, s, op, t)
    ensures t.freeBlocks + |t.owner| == s.freeBlocks + |s.owner|
  {
    if op.Reserve? {
      NobodyOwned(geo, s, op, t);
      assert t.owner.Keys == s.owner.Keys + {op.block};
    } else {
      assert t.owner.Keys == s.owner.Keys - {op.block};
    }
    assert |t.owner| == |t.owner.Keys| && |s.owner| == |s.owner.Keys|;
  }

  ghost predicate IsRun(geo: Geometry, states: seq<State>, ops: seq<Op>)
    requires geo.Ok()
  {
    |states| == |ops| + 1 && forall i :: 0 <= i < |ops| ==> Step(geo, states[i], ops[i], states[i + 1])
  }

  /** Over any run the counters stay exact and the sum of free and owned blocks stays the same. */
  lemma {:induction false} RunKeepsOk(geo: Geometry, states: seq<State>, ops: seq<Op>, i: nat)
    requires geo.Ok() && IsRun(geo, states, ops) && Ok(geo, states[0]) && i <= |ops|
    ensures Ok(geo, states[i])
    ensures states[i].freeBlocks + |states[i].owner| == states[0].freeBlocks + |states[0].owner|
  {
    if i > 0 {
      RunKeepsOk(geo, states, ops, i - 1);
      StepKeepsOk(geo, states[i - 1], ops[i - 1], states[i]);
    }
  }

  // ---------------------------------------------------------------- the code makes these steps

  ghost function StateOf(v: Volume, owner: map<nat, Inode>, inodes: set<Inode>): State
    reads v, inodes`blocks
  {
    State(v.groups, v.freeBlocks, v.disk, owner, map i | i in inodes :: i.blocks)
  }

  /** ReserveDataBlock in a run: the block changes from nobody's to the inode's. */
  method Reserve(v: Volume, group: nat, inode: Inode, clear: bool, ghost owner: map<nat, Inode>,
                 ghost inodes: set<Inode>)
    returns (block: nat, ghost owner': map<nat, Inode>)
    requires v.geo.Ok() && Ok(v.geo, StateOf(v, owner, inodes)) && inode in inodes
    requires v.freeBlocks > 0 && group < |v.groups|
    modifies v`groups, v`freeBlocks, v`disk, v`fileErr, inode`blocks
    ensures owner' == owner[block := inode]
    ensures Step(v.geo, old(StateOf(v, owner, inodes)), Op.Reserve(inode, block, clear), StateOf(v, owner', inodes))
    ensures Ok(v.geo, StateOf(v, owner', inodes))
  {
    hide Ok, VolumeOk, GroupsWith, DiskWith, Used, NotBetter;
    ghost var s := StateOf(v, owner, inodes);
    VolumeOfRun(v, owner, inodes);
    block := ReserveDataBlock(v, group, inode, clear);
    owner' := owner[block := inode];
    ghost var t := StateOf(v, owner', inodes);
    assert t.blocks == s.blocks[inode := s.blocks[inode] + v.geo.blockSize / 512];
    StepKeepsOk(v.geo, s, Op.Reserve(inode, block, clear), t);
  }

  lemma VolumeOfRun(v: Volume, owner: map<nat, Inode>, inodes: set<Inode>)
    requires Ok(v.geo, StateOf(v, owner, inodes))
    ensures VolumeOk(v.geo, v.groups, v.freeBlocks, v.disk)
    ensures v.geo.Ok() && forall b :: b in owner ==> OwnerOk(v.geo, StateOf(v, owner, inodes), b)
  {
  }

  /** FreeDataBlock in a run, through the group that the block belongs to. */
  method Free(v: Volume, group: nat, inode: Inode, block: nat, ghost owner: map<nat, Inode>, ghost inodes: set<Inode>)
    returns (ghost owner': map<nat, Inode>)
    requires v.geo.Ok() && Ok(v.geo, StateOf(v, owner, inodes)) && block in owner && owner[block] == inode
    requires InGroup(v.geo, v.groups, block) && group == GroupOf(v.geo, block)
    modifies v`groups, v`freeBlocks, v`disk, inode`blocks
    ensures owner' == owner - {block}
    ensures Step(v.geo, old(StateOf(v, owner, inodes)), Op.Free(block), StateOf(v, owner', inodes))
    ensures Ok(v.geo, StateOf(v, owner', inodes))
  {
    ghost var s := StateOf(v, owner, inodes);
    hide Ok, VolumeOk, GroupsWith, DiskWith, Used, InGroup, IsBitmap;
    VolumeOfRun(v, owner, inodes);
    assert OwnerOk(v.geo, s, block);
    FreeDataBlock(v, group, inode, block);
    owner' := owner - {block};
    ghost var t := StateOf(v, owner', inodes);
    assert t.blocks == s.blocks[inode := s.blocks[inode] - v.geo.blockSize / 512];
    StepKeepsOk(v.geo, s, Op.Free(block), t);
  }
}
