/** Reading and writing the bytes of an ext2 file. */
module Ext2File {
  import opened Machine
  import opened Arithmetic
  import opened Ext2Disk
  import opened Ext2Alloc
  import opened Ext2Tree
  import opened Ext2Map

  // ---------------------------------------------------------------- the bytes of a file

  /** BlocksForSize */
  function BlocksForSize(bs: nat, size: nat): nat
    requires bs > 0
  {
    Quotient(size + bs - 1, bs)
  }

  /** The number of blocks is the least that holds the size. */
  lemma BlocksCover(bs: nat, size: nat, i: nat)
    requires bs > 0
    ensures i < BlocksForSize(bs, size) <==> Times(bs, i) < size
  {
    QuotientBelow(size + bs - 1, bs, i + 1);
  }

  /** Block `i` of the file, or 0. */
  function BlockOf(geo: Geometry, m: Image, i: nat): Word
    requires geo.Ok()
  {
    At(m, Route(geo.Pointers(), i))
  }

  /** The bytes of block `i`; nothing when it does not exist. */
  function BlockBytes(geo: Geometry, m: Image, i: nat): seq<byte>
    requires geo.Ok()
  {
    var b := BlockOf(geo, m, i);
    if b != 0 && b in m.disk then BytesOf(m.disk[b]) else []
  }

  function ByteAt(geo: Geometry, m: Image, k: nat): byte
    requires geo.Ok()
  {
    var bytes := BlockBytes(geo, m, Quotient(k, geo.blockSize));
    var r := Rest(k, geo.blockSize);
    if r < |bytes| then bytes[r] else 0
  }

  function Content(geo: Geometry, m: Image, size: nat): (s: seq<byte>)
    requires geo.Ok()
    ensures |s| == size
  {
    seq(size, k requires 0 <= k < size => ByteAt(geo, m, k))
  }

  /** Byte `k` of a file is byte `k` % bs of the block that the reader finds for `k` / bs. */
  lemma ContentIs(geo: Geometry, m: Image, size: nat, blocks: int, k: nat)
    requires geo.Ok() && FileOk(geo, m, size, blocks) && k < size
    ensures var i, r := Quotient(k, geo.blockSize), Rest(k, geo.blockSize);
            var b := ReaderBlock(geo.Pointers(), m, i);
            && b != 0 && b in m.disk && r < |BytesOf(m.disk[b])| == geo.blockSize
            && Content(geo, m, size)[k] == BytesOf(m.disk[b])[r]
  {
    var i := Quotient(k, geo.blockSize);
    Position(k, geo.blockSize);
    BlocksCover(geo.blockSize, size, i);
    assert BlockOf(geo, m, i) != 0;
    ReaderWithinWriter(geo.Pointers());
    DataIsStable(geo, m, i);
    BlockIsWhole(geo, m, i);
  }

  /** The first `n` blocks of the file exist. */
  ghost predicate Mapped(geo: Geometry, m: Image, n: nat)
    requires geo.Ok()
  {
    forall i {:trigger BlockOf(geo, m, i)} :: 0 <= i < n ==> BlockOf(geo, m, i) != 0
  }

  /** The number of existing blocks among the first `n`. */
  function CountBlocks(geo: Geometry, m: Image, n: nat): (c: nat)
    requires geo.Ok()
    ensures c <= n
  {
    if n == 0 then 0 else CountBlocks(geo, m, n - 1) + (if BlockOf(geo, m, n - 1) != 0 then 1 else 0)
  }

  /** All blocks of the file exist and lie in the range of the reader; the sector count
      covers at least the existing blocks. */
  ghost predicate FileOk(geo: Geometry, m: Image, size: nat, blocks: int) {
    && ImageOk(geo, m)
    && BlocksForSize(geo.blockSize, size) <= ReaderLimit(geo.Pointers())
    && Mapped(geo, m, BlocksForSize(geo.blockSize, size))
    && CountBlocks(geo, m, ReaderLimit(geo.Pointers())) <= blocks
  }

  lemma {:induction false} MappedAreCounted(geo: Geometry, m: Image, n: nat, all: nat)
    requires geo.Ok() && Mapped(geo, m, n) && n <= all
    ensures n <= CountBlocks(geo, m, all)
  {
    if all > n {
      MappedAreCounted(geo, m, n, all - 1);
    } else if n > 0 {
      MappedAreCounted(geo, m, n - 1, n - 1);
      assert BlockOf(geo, m, n - 1) != 0;
    }
  }

  lemma BlockIsWhole(geo: Geometry, m: Image, i: nat)
    requires ImageOk(geo, m) && i < WriterLimit(geo.Pointers()) && BlockOf(geo, m, i) != 0
    ensures |BlockBytes(geo, m, i)| == geo.blockSize
  {
    DataIsStable(geo, m, i);
  }

  // ---------------------------------------------------------------- one block of a write

  function Patch(base: seq<byte>, from: nat, chunk: seq<byte>): (r: seq<byte>)
    requires from + |chunk| <= |base|
    ensures |r| == |base|
    ensures forall k :: 0 <= k < |r| ==> r[k] == if from <= k < from + |chunk| then chunk[k - from] else base[k]
  {
    base[..from] + chunk + base[from + |chunk|..]
  }

  /** `m'` is `m` with `chunk` at position `from` of block `bi`, which may be new. */
  ghost predicate Patched(geo: Geometry, m: Image, bi: nat, from: nat, chunk: seq<byte>, m': Image)
    requires geo.Ok()
  {
    && ImageOk(geo, m')
    && BlockOf(geo, m', bi) != 0
    && (forall i: nat {:trigger BlockOf(geo, m', i)} ::
          i < WriterLimit(geo.Pointers()) && i != bi && BlockOf(geo, m, i) != 0 ==>
          BlockOf(geo, m', i) == BlockOf(geo, m, i) && BlockBytes(geo, m', i) == BlockBytes(geo, m, i))
    && |BlockBytes(geo, m', bi)| == geo.blockSize
    && forall k :: 0 <= k < geo.blockSize ==>
         if from <= k < from + |chunk| then BlockBytes(geo, m', bi)[k] == chunk[k - from]
         else BlockOf(geo, m, bi) != 0 ==>
           k < |BlockBytes(geo, m, bi)| && BlockBytes(geo, m', bi)[k] == BlockBytes(geo, m, bi)[k]
  }

  /** Writing to a data block is no concern of the tree. */
  lemma DataWritten(geo: Geometry, m: Image, bi: nat, content: Block)
    requires ImageOk(geo, m) && bi < WriterLimit(geo.Pointers()) && BlockOf(geo, m, bi) != 0 && geo.SizeOk(content)
    ensures ImageOk(geo, m.(disk := m.disk[BlockOf(geo, m, bi) := content]))
    ensures forall q {:trigger At(m, q)} :: IsPlace(geo.Pointers(), q) ==>
              At(m.(disk := m.disk[BlockOf(geo, m, bi) := content]), q) == At(m, q)
  {
    var b := BlockOf(geo, m, bi);
    var m' := m.(disk := m.disk[b := content]);
    DataIsStable(geo, m, bi);
    OverwriteKeepsVolume(geo, m.groups, m.freeBlocks, m.disk, b, content);
    forall q {:trigger At(m, q)} | IsPlace(geo.Pointers(), q)
      ensures At(m', q) == At(m, q)
    {
      DataWrittenAt(geo, m, b, content, q);
    }
    forall q {:trigger PlaceOk(geo, m', q)} | IsPlace(geo.Pointers(), q)
      ensures PlaceOk(geo, m', q)
    {
      assert PlaceOk(geo, m, q) && At(m, q) == At(m', q);
    }
    forall q, r {:trigger PlacesDiffer(m', q, r)} | IsPlace(geo.Pointers(), q) && IsPlace(geo.Pointers(), r)
      ensures PlacesDiffer(m', q, r)
    {
      assert PlacesDiffer(m, q, r) && At(m, q) == At(m', q) && At(m, r) == At(m', r);
    }
  }

  lemma {:induction false} DataWrittenAt(geo: Geometry, m: Image, b: nat, content: Block, q: Place)
    requires geo.Ok() && Stable(geo, m, b) && b != 0 && IsPlace(geo.Pointers(), q)
    ensures At(m.(disk := m.disk[b := content]), q) == At(m, q)
    decreases |q|
  {
    if |q| > 1 {
      ParentIsPlace(geo.Pointers(), q);
      DataWrittenAt(geo, m, b, content, Parent(q));
      assert At(m, Parent(q)) != b;
    }
  }

  /** Blocks of the file that exist in `m` are the same in `m'`. */
  ghost predicate BlocksKept(geo: Geometry, m: Image, m': Image)
    requires geo.Ok()
  {
    forall i: nat {:trigger BlockOf(geo, m', i)} :: i < WriterLimit(geo.Pointers()) && BlockOf(geo, m, i) != 0 ==>
      BlockOf(geo, m', i) == BlockOf(geo, m, i) && BlockBytes(geo, m', i) == BlockBytes(geo, m, i)
  }

  lemma ExtendedKeeps(geo: Geometry, m: Image, r: Place, m': Image)
    requires ImageOk(geo, m) && Extended(geo, m, r, m')
    ensures BlocksKept(geo, m, m')
  {
    forall i: nat {:trigger BlockOf(geo, m', i)} | i < WriterLimit(geo.Pointers()) && BlockOf(geo, m, i) != 0
      ensures BlockOf(geo, m', i) == BlockOf(geo, m, i) && BlockBytes(geo, m', i) == BlockBytes(geo, m, i)
    {
      RouteIsPlace(geo.Pointers(), i);
      DataIsStable(geo, m, i);
    }
  }

  // ---------------------------------------------------------------- the other files

  /** A file with the block array `ib` on the same volume, with no block in common with this one. */
  ghost predicate OtherFile(geo: Geometry, m: Image, ib: seq<Word>)
    requires geo.Ok()
  {
    TreeOk(geo, m.(ib := ib)) && Apart(geo.Pointers(), m, m.(ib := ib))
  }

  /** Every block of the file is the same one with the same bytes in both. */
  ghost predicate SameBlocks(geo: Geometry, n: Image, n': Image)
    requires geo.Ok()
  {
    forall i: nat {:trigger BlockOf(geo, n', i)} :: i < WriterLimit(geo.Pointers()) ==>
      BlockOf(geo, n', i) == BlockOf(geo, n, i) && BlockBytes(geo, n', i) == BlockBytes(geo, n, i)
  }

  /** Every other file is as it was, and is still another file. */
  ghost predicate OtherFilesKept(geo: Geometry, m: Image, m': Image)
    requires geo.Ok()
  {
    forall ib {:trigger OtherFile(geo, m, ib)} {:trigger OtherFile(geo, m', ib)} :: OtherFile(geo, m, ib) ==>
      OtherFile(geo, m', ib) && SameBlocks(geo, m.(ib := ib), m'.(ib := ib))
  }

  lemma OtherFilesKeptOn(geo: Geometry, m0: Image, m1: Image, m2: Image)
    requires geo.Ok() && OtherFilesKept(geo, m0, m1) && OtherFilesKept(geo, m1, m2)
    ensures OtherFilesKept(geo, m0, m2)
  {
    forall ib {:trigger OtherFile(geo, m0, ib)} | OtherFile(geo, m0, ib)
      ensures OtherFile(geo, m2, ib) && SameBlocks(geo, m0.(ib := ib), m2.(ib := ib))
    {
      assert OtherFile(geo, m1, ib);
      SameBlocksOn(geo, m0.(ib := ib), m1.(ib := ib), m2.(ib := ib));
    }
  }

  lemma SameBlocksOn(geo: Geometry, n0: Image, n1: Image, n2: Image)
    requires geo.Ok() && SameBlocks(geo, n0, n1) && SameBlocks(geo, n1, n2)
    ensures SameBlocks(geo, n0, n2)
  {
    forall i: nat {:trigger BlockOf(geo, n2, i)} | i < WriterLimit(geo.Pointers())
      ensures BlockOf(geo, n2, i) == BlockOf(geo, n0, i) && BlockBytes(geo, n2, i) == BlockBytes(geo, n0, i)
    {
      assert BlockOf(geo, n1, i) == BlockOf(geo, n0, i);
    }
  }

  /** The same blocks hold the same bytes. */
  lemma SameContent(geo: Geometry, n: Image, n': Image, size: nat)
    requires geo.Ok() && SameBlocks(geo, n, n') && BlocksForSize(geo.blockSize, size) <= WriterLimit(geo.Pointers())
    ensures Content(geo, n', size) == Content(geo, n, size)
  {
    forall k | 0 <= k < size
      ensures Content(geo, n', size)[k] == Content(geo, n, size)[k]
    {
      var i := Quotient(k, geo.blockSize);
      Position(k, geo.blockSize);
      BlocksCover(geo.blockSize, size, i);
      assert BlockOf(geo, n', i) == BlockOf(geo, n, i);
    }
  }

  /** Allocating for one file leaves the others alone. */
  lemma AllocKeepsOthers(geo: Geometry, m: Image, r: Place, m': Image)
    requires geo.Ok() && Extended(geo, m, r, m')
    ensures OtherFilesKept(geo, m, m')
  {
    forall ib {:trigger OtherFile(geo, m, ib)} | OtherFile(geo, m, ib)
      ensures OtherFile(geo, m', ib) && SameBlocks(geo, m.(ib := ib), m'.(ib := ib))
    {
      var n, n' := m.(ib := ib), m'.(ib := ib);
      OtherFileKept(geo, m, r, m', n);
      forall i: nat {:trigger BlockOf(geo, n', i)} | i < WriterLimit(geo.Pointers())
        ensures BlockOf(geo, n', i) == BlockOf(geo, n, i) && BlockBytes(geo, n', i) == BlockBytes(geo, n, i)
      {
        RouteIsPlace(geo.Pointers(), i);
      }
    }
  }

  /** Overwriting a block that is at none of its places leaves a tree alone. */
  lemma {:induction false} ForeignWrittenAt(geo: Geometry, n: Image, b: nat, content: Block, q: Place)
    requires geo.Ok() && IsPlace(geo.Pointers(), q) && b != 0
    requires forall s {:trigger At(n, s)} :: IsPlace(geo.Pointers(), s) ==> At(n, s) != b
    ensures At(n.(disk := n.disk[b := content]), q) == At(n, q)
    decreases |q|
  {
    if |q| > 1 {
      ParentIsPlace(geo.Pointers(), q);
      ForeignWrittenAt(geo, n, b, content, Parent(q));
      assert At(n, Parent(q)) != b;
    }
  }

  /** The block is none of the file's, of neither kind. */
  ghost predicate Foreign(geo: Geometry, n: Image, b: nat)
    requires geo.Ok()
  {
    b != 0 && forall s {:trigger At(n, s)} :: IsPlace(geo.Pointers(), s) ==> At(n, s) != b
  }

  lemma ForeignPlaces(geo: Geometry, n: Image, b: nat, content: Block)
    requires geo.Ok() && Foreign(geo, n, b)
    ensures forall q {:trigger At(n, q)} {:trigger At(n.(disk := n.disk[b := content]), q)} ::
              IsPlace(geo.Pointers(), q) ==> At(n.(disk := n.disk[b := content]), q) == At(n, q)
  {
    var n' := n.(disk := n.disk[b := content]);
    forall q {:trigger At(n, q)} {:trigger At(n', q)} | IsPlace(geo.Pointers(), q)
      ensures At(n', q) == At(n, q)
    {
      ForeignWrittenAt(geo, n, b, content, q);
    }
  }

  lemma ForeignBlock(geo: Geometry, n: Image, b: nat, content: Block, i: nat)
    requires geo.Ok() && Foreign(geo, n, b) && i < WriterLimit(geo.Pointers())
    ensures var n' := n.(disk := n.disk[b := content]);
            BlockOf(geo, n', i) == BlockOf(geo, n, i) && BlockBytes(geo, n', i) == BlockBytes(geo, n, i)
  {
    var r := Route(geo.Pointers(), i);
    RouteIsPlace(geo.Pointers(), i);
    ForeignWrittenAt(geo, n, b, content, r);
    assert At(n, r) != b;
  }

  lemma ForeignBlocks(geo: Geometry, n: Image, b: nat, content: Block)
    requires geo.Ok() && Foreign(geo, n, b)
    ensures SameBlocks(geo, n, n.(disk := n.disk[b := content]))
  {
    hide Foreign, BlockOf, BlockBytes, WriterLimit;
    var n' := n.(disk := n.disk[b := content]);
    forall i: nat {:trigger BlockOf(geo, n', i)} | i < WriterLimit(geo.Pointers())
      ensures BlockOf(geo, n', i) == BlockOf(geo, n, i) && BlockBytes(geo, n', i) == BlockBytes(geo, n, i)
    {
      ForeignBlock(geo, n, b, content, i);
    }
  }

  lemma ForeignWritten(geo: Geometry, freeBlocks: nat, n: Image, b: nat, content: Block)
    requires VolumeOk(geo, n.groups, freeBlocks, n.disk) && TreeOk(geo, n) && Foreign(geo, n, b)
    requires !IsBitmap(n.groups, b) && geo.SizeOk(content)
    ensures TreeOk(geo, n.(disk := n.disk[b := content])) && SameBlocks(geo, n, n.(disk := n.disk[b := content]))
    ensures forall q {:trigger At(n, q)} :: IsPlace(geo.Pointers(), q) ==>
              At(n.(disk := n.disk[b := content]), q) == At(n, q)
  {
    hide At, SameBlocks, BlockOf, BlockBytes;
    var n' := n.(disk := n.disk[b := content]);
    OverwriteKeepsVolume(geo, n.groups, freeBlocks, n.disk, b, content);
    ForeignPlaces(geo, n, b, content);
    ForeignBlocks(geo, n, b, content);
    forall q {:trigger PlaceOk(geo, n', q)} | IsPlace(geo.Pointers(), q)
      ensures PlaceOk(geo, n', q)
    {
      assert PlaceOk(geo, n, q) && At(n, q) == At(n', q);
    }
    forall q, r {:trigger PlacesDiffer(n', q, r)} | IsPlace(geo.Pointers(), q) && IsPlace(geo.Pointers(), r)
      ensures PlacesDiffer(n', q, r)
    {
      assert PlacesDiffer(n, q, r) && At(n, q) == At(n', q) && At(n, r) == At(n', r);
    }
  }

  /** Writing to a data block of one file leaves the others alone. */
  lemma DataKeepsOthers(geo: Geometry, m: Image, bi: nat, content: Block)
    requires ImageOk(geo, m) && bi < WriterLimit(geo.Pointers()) && BlockOf(geo, m, bi) != 0 && geo.SizeOk(content)
    ensures OtherFilesKept(geo, m, m.(disk := m.disk[BlockOf(geo, m, bi) := content]))
  {
    var b := BlockOf(geo, m, bi);
    var m' := m.(disk := m.disk[b := content]);
    DataIsStable(geo, m, bi);
    RouteIsPlace(geo.Pointers(), bi);
    DataWritten(geo, m, bi, content);
    forall ib {:trigger OtherFile(geo, m, ib)} | OtherFile(geo, m, ib)
      ensures OtherFile(geo, m', ib) && SameBlocks(geo, m.(ib := ib), m'.(ib := ib))
    {
      var n := m.(ib := ib);
      ForeignWritten(geo, m.freeBlocks, n, b, content);
      var n' := m'.(ib := ib);
      assert n' == n.(disk := n.disk[b := content]);
      forall q, r {:trigger At(m', q), At(n', r)} | IsPlace(geo.Pointers(), q) && IsPlace(geo.Pointers(), r)
        && At(m', q) != 0
        ensures At(m', q) != At(n', r)
      {
        assert At(m', q) == At(m, q) && At(n', r) == At(n, r);
      }
    }
  }

  lemma ChunkPatched(geo: Geometry, m: Image, m1: Image, bi: nat, from: nat, chunk: seq<byte>, content: Block)
    requires ImageOk(geo, m1) && bi < WriterLimit(geo.Pointers()) && BlockOf(geo, m1, bi) != 0
    requires BlocksKept(geo, m, m1) && from + |chunk| <= geo.blockSize == |BlockBytes(geo, m1, bi)|
    requires content == Bytes(Patch(BlockBytes(geo, m1, bi), from, chunk))
    ensures Patched(geo, m, bi, from, chunk, m1.(disk := m1.disk[BlockOf(geo, m1, bi) := content]))
  {
    var m' := m1.(disk := m1.disk[BlockOf(geo, m1, bi) := content]);
    DataWritten(geo, m1, bi, content);
    RouteIsPlace(geo.Pointers(), bi);
    assert BlockOf(geo, m', bi) == BlockOf(geo, m1, bi);
    assert BlockBytes(geo, m', bi) == Patch(BlockBytes(geo, m1, bi), from, chunk);
    assert BlockOf(geo, m, bi) != 0 ==> BlockBytes(geo, m1, bi) == BlockBytes(geo, m, bi);
    forall i: nat {:trigger BlockOf(geo, m', i)} | i < WriterLimit(geo.Pointers()) && i != bi && BlockOf(geo, m, i) != 0
      ensures BlockOf(geo, m', i) == BlockOf(geo, m, i) && BlockBytes(geo, m', i) == BlockBytes(geo, m, i)
    {
      assert BlockOf(geo, m1, i) == BlockOf(geo, m, i);
      RouteIsPlace(geo.Pointers(), i);
      MappedApart(geo, m1, i, bi);
    }
  }

  /** The way to block `bi` is complete, and all other places are as they were. */
  ghost predicate OnlyWayFilled(geo: Geometry, m: Image, bi: nat, m': Image)
    requires geo.Ok()
  {
    forall q {:trigger At(m', q)} :: IsPlace(geo.Pointers(), q) ==>
      if IsPrefix(q, Route(geo.Pointers(), bi)) then At(m', q) != 0 else At(m', q) == At(m, q)
  }

  lemma {:induction false} NoneMissing(m: Image, r: Place)
    requires At(m, r) != 0
    ensures Missing(m, r) == 0
    decreases |r|
  {
    if |r| > 1 {
      NoneMissing(m, Parent(r));
    } else {
      assert Parent(r) == [];
    }
  }

  /** The block that the loop of ext2_Write works on, found or allocated. */
  method BlockForWrite(v: Volume, group: nat, inode: Inode, bi: Word, inodeBlocks: nat) returns (block: Word)
    requires ImageOk(v.geo, Img(v, inode)) && group < |v.groups| && bi < ReaderLimit(v.geo.Pointers())
    requires bi < inodeBlocks ==> BlockOf(v.geo, Img(v, inode), bi) != 0
    requires Missing(Img(v, inode), Route(v.geo.Pointers(), bi)) <= v.freeBlocks
    modifies v`groups, v`freeBlocks, v`disk, v`fileErr, inode`blocks, inode`block
    ensures ImageOk(v.geo, Img(v, inode)) && block == BlockOf(v.geo, Img(v, inode), bi) && block != 0
    ensures BlocksKept(v.geo, old(Img(v, inode)), Img(v, inode))
    ensures OtherFilesKept(v.geo, old(Img(v, inode)), Img(v, inode))
    ensures OnlyWayFilled(v.geo, old(Img(v, inode)), bi, Img(v, inode))
    ensures v.freeBlocks == old(v.freeBlocks) - Missing(old(Img(v, inode)), Route(v.geo.Pointers(), bi))
    ensures |v.groups| == |old(v.groups)| && v.fileErr == old(v.fileErr)
    ensures inode.blocks == old(inode.blocks) + Sectors(v.geo, Missing(old(Img(v, inode)), Route(v.geo.Pointers(), bi)))
  {
    ghost var m, r := Img(v, inode), Route(v.geo.Pointers(), bi);
    ReaderWithinWriter(v.geo.Pointers());
    if bi < inodeBlocks {
      DataIsStable(v.geo, m, bi);
      RouteIsPlace(v.geo.Pointers(), bi);
      NoneMissing(m, r);
      assert r[..|r|] == r;
      block := GetBlockNumber(v, inode, bi);
      return;
    }
    block := AddInodeDataBlock(v, group, inode, bi);
    ExtendedKeeps(v.geo, m, r, Img(v, inode));
    AllocKeepsOthers(v.geo, m, r, Img(v, inode));
  }

  /** The body of the loop of ext2_Write: the block, and the bytes that go there. */
  method WriteChunk(v: Volume, group: nat, inode: Inode, bi: Word, inodeBlocks: nat, from: nat, chunk: seq<byte>)
    requires ImageOk(v.geo, Img(v, inode)) && group < |v.groups| && bi < ReaderLimit(v.geo.Pointers())
    requires from + |chunk| <= v.geo.blockSize
    requires bi < inodeBlocks ==> BlockOf(v.geo, Img(v, inode), bi) != 0
    requires Missing(Img(v, inode), Route(v.geo.Pointers(), bi)) <= v.freeBlocks
    modifies v`groups, v`freeBlocks, v`disk, v`fileErr, inode`blocks, inode`block
    ensures Patched(v.geo, old(Img(v, inode)), bi, from, chunk, Img(v, inode))
    ensures OtherFilesKept(v.geo, old(Img(v, inode)), Img(v, inode))
    ensures OnlyWayFilled(v.geo, old(Img(v, inode)), bi, Img(v, inode))
    ensures v.freeBlocks == old(v.freeBlocks) - Missing(old(Img(v, inode)), Route(v.geo.Pointers(), bi))
    ensures |v.groups| == |old(v.groups)| && v.fileErr == old(v.fileErr)
    ensures inode.blocks == old(inode.blocks) + Sectors(v.geo, Missing(old(Img(v, inode)), Route(v.geo.Pointers(), bi)))
  {
    ghost var m := Img(v, inode);
    var block := BlockForWrite(v, group, inode, bi, inodeBlocks);
    ghost var m1 := Img(v, inode);
    ReaderWithinWriter(v.geo.Pointers());
    BlockIsWhole(v.geo, m1, bi);
    DataIsStable(v.geo, m1, bi);
    ghost var content := Bytes(Patch(BytesOf(v.disk[block]), from, chunk));
    ChunkPatched(v.geo, m, m1, bi, from, chunk, content);
    DataWritten(v.geo, m1, bi, content);
    DataKeepsOthers(v.geo, m1, bi, content);
    OtherFilesKeptOn(v.geo, m, m1, m1.(disk := m1.disk[block := content]));
    v.disk := v.disk[block := Bytes(Patch(BytesOf(v.disk[block]), from, chunk))];
    forall q {:trigger At(Img(v, inode), q)} | IsPlace(v.geo.Pointers(), q)
      ensures At(Img(v, inode), q) == At(m1, q)
    {
    }
  }

  // ---------------------------------------------------------------- the space a write needs

  /** The places on the way to `r` that are empty. */
  ghost function MissingOf(m: Image, r: Place): set<Place>
    decreases |r|
  {
    if r == [] then {} else MissingOf(m, Parent(r)) + if At(m, r) == 0 then {r} else {}
  }

  lemma {:induction false} MissingOfIs(m: Image, r: Place)
    ensures |MissingOf(m, r)| == Missing(m, r)
    ensures forall q :: q in MissingOf(m, r) <==> q != [] && IsPrefix(q, r) && At(m, q) == 0
    decreases |r|
  {
    if r != [] {
      MissingOfIs(m, Parent(r));
      assert r[..|r|] == r;
      assert forall q :: IsPrefix(q, r) <==> q == r || IsPrefix(q, Parent(r));
      assert r !in MissingOf(m, Parent(r));
    }
  }

  /** The empty places on the ways to blocks `lo` to `hi` of the file. */
  ghost function MissingIn(p: nat, m: Image, lo: nat, hi: nat): set<Place>
    requires p > 0
    decreases hi - lo
  {
    if lo >= hi then {} else MissingOf(m, Route(p, lo)) + MissingIn(p, m, lo + 1, hi)
  }

  lemma {:induction false} MissingInIs(p: nat, m: Image, lo: nat, hi: nat, q: Place)
    requires p > 0
    ensures q in MissingIn(p, m, lo, hi) <==> exists i :: lo <= i < hi && q in MissingOf(m, Route(p, i))
    decreases hi - lo
  {
    if lo < hi {
      MissingInIs(p, m, lo + 1, hi, q);
    }
  }

  lemma StillMissing(geo: Geometry, m: Image, bi: nat, hi: nat, m': Image, q: Place)
    requires geo.Ok() && bi < hi <= WriterLimit(geo.Pointers()) && OnlyWayFilled(geo, m, bi, m')
    requires q in MissingIn(geo.Pointers(), m', bi + 1, hi)
    ensures q !in MissingOf(m, Route(geo.Pointers(), bi)) && q in MissingIn(geo.Pointers(), m, bi, hi)
  {
    hide MissingIn, MissingOf;
    var p := geo.Pointers();
    MissingInIs(p, m', bi + 1, hi, q);
    var i :| bi + 1 <= i < hi && q in MissingOf(m', Route(p, i));
    RouteIsPlace(p, i);
    StillEmpty(p, m, Route(p, bi), m', Route(p, i), q);
    MissingInIs(p, m, bi, hi, q);
  }

  lemma StillEmpty(p: nat, m: Image, filled: Place, m': Image, r: Place, q: Place)
    requires IsPlace(p, r) && q in MissingOf(m', r)
    requires forall s {:trigger At(m', s)} :: IsPlace(p, s) ==>
               if IsPrefix(s, filled) then At(m', s) != 0 else At(m', s) == At(m, s)
    ensures q in MissingOf(m, r) && q !in MissingOf(m, filled)
  {
    MissingOfIs(m', r);
    MissingOfIs(m, r);
    MissingOfIs(m, filled);
    assert IsPlace(p, q);
  }

  /** Block `bi` takes what was missing on its way, and no more is missing for the rest. */
  lemma MissingShrinks(geo: Geometry, m: Image, bi: nat, hi: nat, m': Image)
    requires geo.Ok() && bi < hi <= WriterLimit(geo.Pointers())
    requires OnlyWayFilled(geo, m, bi, m')
    ensures |MissingIn(geo.Pointers(), m', bi + 1, hi)|
              + Missing(m, Route(geo.Pointers(), bi)) <= |MissingIn(geo.Pointers(), m, bi, hi)|
  {
    var p := geo.Pointers();
    var now, rest := MissingOf(m, Route(p, bi)), MissingIn(p, m', bi + 1, hi);
    MissingOfIs(m, Route(p, bi));
    forall q | q in rest
      ensures q !in now && q in MissingIn(p, m, bi, hi)
    {
      StillMissing(geo, m, bi, hi, m', q);
    }
    forall q | q in now
      ensures q in MissingIn(p, m, bi, hi)
    {
      MissingInIs(p, m, bi, hi, q);
    }
    Within(now, rest, MissingIn(p, m, bi, hi));
  }

  lemma Within(a: set<Place>, b: set<Place>, c: set<Place>)
    requires a !! b && a <= c && b <= c
    ensures |a| + |b| <= |c|
  {
    Fewer(a + b, c);
  }

  lemma {:induction false} Fewer(a: set<Place>, c: set<Place>)
    requires a <= c
    ensures |a| <= |c|
  {
    if a != {} {
      var x :| x in a;
      Fewer(a - {x}, c - {x});
    }
  }

  // ---------------------------------------------------------------- the progress of a write

  lemma ByteAfterPatch(geo: Geometry, m: Image, bi: nat, from: nat, chunk: seq<byte>, m': Image, k: nat)
    requires ImageOk(geo, m) && Patched(geo, m, bi, from, chunk, m') && from + |chunk| <= geo.blockSize
    requires Quotient(k, geo.blockSize) < WriterLimit(geo.Pointers())
    ensures var start := Times(geo.blockSize, bi) + from;
            if start <= k < start + |chunk| then ByteAt(geo, m', k) == chunk[k - start]
            else BlockOf(geo, m, Quotient(k, geo.blockSize)) != 0 ==> ByteAt(geo, m', k) == ByteAt(geo, m, k)
  {
    var q := Quotient(k, geo.blockSize);
    InOtherBlock(k, geo.blockSize, bi);
    Position(k, geo.blockSize);
    if BlockOf(geo, m, q) != 0 {
      BlockIsWhole(geo, m, q);
    }
    assert q != bi && BlockOf(geo, m, q) != 0 ==> BlockOf(geo, m', q) == BlockOf(geo, m, q);
  }

  /** A position in another block is before or behind the whole of this one. */
  lemma InOtherBlock(k: nat, bs: nat, bi: nat)
    requires bs > 0
    ensures Quotient(k, bs) < bi ==> k < Times(bs, bi)
    ensures Quotient(k, bs) > bi ==> k >= Times(bs, bi) + bs
  {
    QuotientBelow(k, bs, bi);
    QuotientBelow(k, bs, bi + 1);
  }

  function Max(a: nat, b: nat): (m: nat)
    ensures a <= m && b <= m && (m == a || m == b)
  {
    if a < b then b else a
  }

  function Min(a: nat, b: nat): (m: nat)
    ensures m <= a && m <= b && (m == a || m == b)
  {
    if a < b then a else b
  }

  /** The bytes from `start` to `off` are written, the others are as they were. */
  ghost predicate Progress(geo: Geometry, m0: Image, size: nat, start: nat, buf: seq<byte>, m: Image, off: nat)
    requires geo.Ok() && start <= off <= start + |buf|
  {
    && ImageOk(geo, m)
    && Mapped(geo, m, BlocksForSize(geo.blockSize, Max(size, off)))
    && forall k {:trigger ByteAt(geo, m, k)} :: 0 <= k < Max(size, off) ==>
         ByteAt(geo, m, k) == if start <= k < off then buf[k - start] else ByteAt(geo, m0, k)
  }

  /** Block `bi` is patched at the position that the progress has reached. */
  ghost predicate Continues(geo: Geometry, m0: Image, size: nat, start: nat, buf: seq<byte>, m: Image, off: nat,
                            bi: nat, from: nat, chunk: seq<byte>, m': Image)
    requires geo.Ok()
  {
    && start <= size && start <= off && off + |chunk| <= start + |buf|
    && Progress(geo, m0, size, start, buf, m, off) && Patched(geo, m, bi, from, chunk, m')
    && off == Times(geo.blockSize, bi) + from && from + |chunk| <= geo.blockSize
    && chunk == buf[off - start..off - start + |chunk|]
    && BlocksForSize(geo.blockSize, Max(size, off + |chunk|)) <= WriterLimit(geo.Pointers())
  }

  lemma MappedFurther(geo: Geometry, m0: Image, size: nat, start: nat, buf: seq<byte>, m: Image, off: nat,
                      bi: nat, from: nat, chunk: seq<byte>, m': Image, i: nat)
    requires geo.Ok() && Continues(geo, m0, size, start, buf, m, off, bi, from, chunk, m')
    requires i < BlocksForSize(geo.blockSize, Max(size, off + |chunk|))
    ensures BlockOf(geo, m', i) != 0
  {
    hide At, ImageOk;
    var bs, off' := geo.blockSize, off + |chunk|;
    BlocksCover(bs, Max(size, off'), i);
    BlocksCover(bs, Max(size, off), i);
    if i > bi {
      TimesMonotone(bs, bi + 1, i);
    }
    if i < bi {
      TimesMonotone(bs, i + 1, bi);
    }
    assert i != bi ==> BlockOf(geo, m, i) != 0;
  }

  lemma ByteFurther(geo: Geometry, m0: Image, size: nat, start: nat, buf: seq<byte>, m: Image, off: nat,
                    bi: nat, from: nat, chunk: seq<byte>, m': Image, k: nat)
    requires geo.Ok() && Continues(geo, m0, size, start, buf, m, off, bi, from, chunk, m')
    requires k < Max(size, off + |chunk|)
    ensures ByteAt(geo, m', k) == if start <= k < off + |chunk| then buf[k - start] else ByteAt(geo, m0, k)
  {
    var bs, off' := geo.blockSize, off + |chunk|;
    Position(k, bs);
    BlocksCover(bs, Max(size, off'), Quotient(k, bs));
    BlocksCover(bs, Max(size, off), Quotient(k, bs));
    ByteAfterPatch(geo, m, bi, from, chunk, m', k);
    if off <= k < off' {
      assert chunk[k - off] == buf[k - start];
    } else {
      assert BlockOf(geo, m, Quotient(k, bs)) != 0;
    }
  }

  lemma ProgressStep(geo: Geometry, m0: Image, size: nat, start: nat, buf: seq<byte>, m: Image, off: nat,
                     bi: nat, from: nat, chunk: seq<byte>, m': Image)
    requires geo.Ok() && Continues(geo, m0, size, start, buf, m, off, bi, from, chunk, m')
    ensures Progress(geo, m0, size, start, buf, m', off + |chunk|)
  {
    forall i {:trigger BlockOf(geo, m', i)} | 0 <= i < BlocksForSize(geo.blockSize, Max(size, off + |chunk|))
      ensures BlockOf(geo, m', i) != 0
    {
      MappedFurther(geo, m0, size, start, buf, m, off, bi, from, chunk, m', i);
    }
    forall k {:trigger ByteAt(geo, m', k)} | 0 <= k < Max(size, off + |chunk|)
      ensures ByteAt(geo, m', k) == if start <= k < off + |chunk| then buf[k - start] else ByteAt(geo, m0, k)
    {
      ByteFurther(geo, m0, size, start, buf, m, off, bi, from, chunk, m', k);
    }
  }

  lemma OtherBlockOf(geo: Geometry, m: Image, bi: nat, m': Image, i: nat)
    requires geo.Ok() && bi < WriterLimit(geo.Pointers()) && i < WriterLimit(geo.Pointers())
    requires OnlyWayFilled(geo, m, bi, m')
    ensures if i == bi then BlockOf(geo, m', i) != 0 else BlockOf(geo, m', i) == BlockOf(geo, m, i)
  {
    var p := geo.Pointers();
    RouteIsPlace(p, i);
    RouteIsPlace(p, bi);
    assert Route(p, bi)[..|Route(p, bi)|] == Route(p, bi);
    if i != bi && IsPrefix(Route(p, i), Route(p, bi)) {
      assert Route(p, i)[0] == Route(p, bi)[0] && Route(p, i) == Route(p, bi);
      RoutesDiffer(p, i, bi);
    }
  }

  /** The counts of existing blocks. */
  lemma {:induction false} CountAfterPatch(geo: Geometry, m: Image, bi: nat, m': Image, n: nat)
    requires geo.Ok() && bi < WriterLimit(geo.Pointers()) && n <= WriterLimit(geo.Pointers())
    requires OnlyWayFilled(geo, m, bi, m')
    ensures CountBlocks(geo, m', n) == CountBlocks(geo, m, n) + (if bi < n && BlockOf(geo, m, bi) == 0 then 1 else 0)
  {
    hide Patched, OnlyWayFilled, At, ImageOk;
    if n > 0 {
      CountAfterPatch(geo, m, bi, m', n - 1);
      OtherBlockOf(geo, m, bi, m', n - 1);
    }
  }

  // ---------------------------------------------------------------- ext2_Write

  /** Where block `bi` of a write from `start` to `end` begins and ends: `from` and `to` of the loop. */
  lemma ChunkBounds(bs: nat, start: nat, end: nat, bi: nat, off: nat)
    requires bs > 0 && start <= end && Quotient(start, bs) <= bi && Times(bs, bi) < end
    requires off == if bi == Quotient(start, bs) then start else Min(end, Times(bs, bi))
    ensures var to := if Times(bs, bi + 1) < end || Rest(end, bs) == 0 then bs else Rest(end, bs);
            Rest(off, bs) <= to <= bs && off == Times(bs, bi) + Rest(off, bs)
              && Times(bs, bi) + to == Min(end, Times(bs, bi + 1))
    ensures Times(bs, bi) <= off <= end
  {
    Position(start, bs);
    Position(end, bs);
    if bi != Quotient(start, bs) {
      RestAt(bi, 0, bs);
    }
    QuotientBelow(end, bs, bi + 1);
    QuotientBelow(end, bs, bi);
    if Times(bs, bi + 1) >= end {
      if Quotient(end, bs) > bi {
        TimesMonotone(bs, bi + 1, Quotient(end, bs));
      }
    }
  }

  /** What holds when the loop of ext2_Write comes to block `bi`. */
  ghost predicate WriteState(geo: Geometry, m0: Image, size: nat, start: nat, buf: seq<byte>, m: Image, blocks: int,
                             bi: nat, off: nat)
    requires geo.Ok()
  {
    var end := start + |buf|;
    && start <= size && Quotient(start, geo.blockSize) <= bi
    && off == (if bi == Quotient(start, geo.blockSize) then start else Min(end, Times(geo.blockSize, bi)))
    && start <= off <= end
    && BlocksForSize(geo.blockSize, Max(size, end)) <= ReaderLimit(geo.Pointers())
    && Progress(geo, m0, size, start, buf, m, off)
    && CountBlocks(geo, m, ReaderLimit(geo.Pointers())) <= blocks
    && |MissingIn(geo.Pointers(), m, bi, BlocksForSize(geo.blockSize, end))| <= m.freeBlocks
  }

  /** What one round writes, and where. */
  ghost predicate RoundDone(geo: Geometry, start: nat, buf: seq<byte>, m: Image, blocks: int, bi: nat, off: nat,
                            from: nat, chunk: seq<byte>, m': Image, blocks': int)
    requires geo.Ok()
  {
    && start <= off && off + |chunk| == Min(start + |buf|, Times(geo.blockSize, bi + 1))
    && off == Times(geo.blockSize, bi) + from && from + |chunk| <= geo.blockSize
    && chunk == buf[off - start..off - start + |chunk|]
    && Patched(geo, m, bi, from, chunk, m') && OnlyWayFilled(geo, m, bi, m')
    && m'.freeBlocks == m.freeBlocks - Missing(m, Route(geo.Pointers(), bi))
    && blocks' == blocks + Sectors(geo, Missing(m, Route(geo.Pointers(), bi)))
  }

  /** One round of the loop. */
  lemma RoundKeeps(geo: Geometry, m0: Image, size: nat, start: nat, buf: seq<byte>, m: Image, blocks: int, bi: nat,
                   off: nat,
                   from: nat, chunk: seq<byte>, m': Image, blocks': int)
    requires geo.Ok() && WriteState(geo, m0, size, start, buf, m, blocks, bi, off)
    requires Times(geo.blockSize, bi) < start + |buf|
    requires RoundDone(geo, start, buf, m, blocks, bi, off, from, chunk, m', blocks')
    ensures WriteState(geo, m0, size, start, buf, m', blocks', bi + 1, off + |chunk|)
  {
    hide ImageOk, ByteAt, Progress, Quotient, BlockBytes, CountBlocks;
    RoundLimits(geo, size, start + |buf|, bi, off + |chunk|);
    ProgressStep(geo, m0, size, start, buf, m, off, bi, from, chunk, m');
    MissingShrinks(geo, m, bi, BlocksForSize(geo.blockSize, start + |buf|), m');
    CountAfterPatch(geo, m, bi, m', ReaderLimit(geo.Pointers()));
    NewBlockCounts(geo, m, Route(geo.Pointers(), bi));
  }

  /** The blocks of a write are in range. */
  lemma RoundLimits(geo: Geometry, size: nat, end: nat, bi: nat, off: nat)
    requires geo.Ok() && Times(geo.blockSize, bi) < end && off <= end
    requires BlocksForSize(geo.blockSize, Max(size, end)) <= ReaderLimit(geo.Pointers())
    ensures bi < BlocksForSize(geo.blockSize, end) <= ReaderLimit(geo.Pointers()) <= WriterLimit(geo.Pointers())
    ensures BlocksForSize(geo.blockSize, Max(size, off)) <= WriterLimit(geo.Pointers())
    ensures BlocksForSize(geo.blockSize, size) <= BlocksForSize(geo.blockSize, Max(size, off))
    ensures bi < WORD
  {
    var bs := geo.blockSize;
    ReaderWithinWriter(geo.Pointers());
    BlocksCover(bs, end, bi);
    FewerBlocks(bs, end, Max(size, end));
    FewerBlocks(bs, Max(size, off), Max(size, end));
    FewerBlocks(bs, size, Max(size, off));
    LimitFits(geo);
  }

  lemma FewerBlocks(bs: nat, a: nat, b: nat)
    requires bs > 0 && a <= b
    ensures BlocksForSize(bs, a) <= BlocksForSize(bs, b)
  {
    var i := BlocksForSize(bs, a);
    if i > BlocksForSize(bs, b) {
      BlocksCover(bs, a, i - 1);
      BlocksCover(bs, b, i - 1);
    }
  }

  lemma NewBlockCounts(geo: Geometry, m: Image, r: Place)
    requires geo.Ok() && r != []
    ensures Sectors(geo, Missing(m, r)) >= if At(m, r) == 0 then 1 else 0
  {
  }

  /** At the end of the loop the file is the old one with the buffer spliced in. */
  lemma WriteDone(geo: Geometry, m0: Image, size: nat, start: nat, buf: seq<byte>, m: Image)
    requires geo.Ok() && start <= size && Progress(geo, m0, size, start, buf, m, start + |buf|)
    ensures Content(geo, m, Max(size, start + |buf|)) == Spliced(Content(geo, m0, size), start, buf)
  {
    var got, want := Content(geo, m, Max(size, start + |buf|)), Spliced(Content(geo, m0, size), start, buf);
    assert |got| == |want|;
    forall k | 0 <= k < |got|
      ensures got[k] == want[k]
    {
      assert got[k] == ByteAt(geo, m, k);
      if k < start {
        assert want[k] == Content(geo, m0, size)[k];
      } else if k < start + |buf| {
        assert want[k] == buf[k - start];
      } else {
        assert want[k] == Content(geo, m0, size)[k];
      }
    }
  }

  /** ext2_Write. On success the buffer replaces and extends the bytes at the cursor. */
  method Write(v: Volume, group: nat, lock: FSLock, buffer: seq<byte>) returns (count: nat)
    requires group < |v.groups| && lock.key.length == lock.key.inode.size
    requires FileOk(v.geo, Img(v, lock.key.inode), lock.key.inode.size, lock.key.inode.blocks)
    requires lock.offset + |buffer| + v.geo.blockSize <= WORD
    requires lock.offset <= lock.key.length ==>
               var end := lock.offset + |buffer|;
               && BlocksForSize(v.geo.blockSize, Max(lock.key.length, end)) <= ReaderLimit(v.geo.Pointers())
               && |MissingIn(v.geo.Pointers(), Img(v, lock.key.inode), Quotient(lock.offset, v.geo.blockSize),
                             BlocksForSize(v.geo.blockSize, end))| <= v.freeBlocks
    modifies v`groups, v`freeBlocks, v`disk, v`fileErr, lock`offset, lock.key`length
    modifies lock.key.inode`blocks, lock.key.inode`block, lock.key.inode`size
    ensures FileOk(v.geo, Img(v, lock.key.inode), lock.key.inode.size, lock.key.inode.blocks)
    ensures lock.key.length == lock.key.inode.size
    ensures OtherFilesKept(v.geo, old(Img(v, lock.key.inode)), Img(v, lock.key.inode))
    ensures old(lock.offset) > old(lock.key.length) ==>
              count == 0 && v.fileErr == SeekError && lock.offset == old(lock.offset)
              && Img(v, lock.key.inode) == old(Img(v, lock.key.inode)) && lock.key.length == old(lock.key.length)
    ensures old(lock.offset) <= old(lock.key.length) ==>
              && count == |buffer| && lock.offset == old(lock.offset) + |buffer|
              && Content(v.geo, Img(v, lock.key.inode), lock.key.inode.size)
                 == Spliced(old(Content(v.geo, Img(v, lock.key.inode), lock.key.inode.size)), old(lock.offset), buffer)
  {
    hide Content, Spliced, MissingIn, BlocksForSize;
    var node := lock.key;
    if lock.offset > node.length {
      v.fileErr := SeekError;
      return 0;
    }
    var end := lock.offset + |buffer|;
    ghost var m0, size, start := Img(v, node.inode), node.inode.size, lock.offset;
    WriteLoop(v, group, lock, node.inode, buffer);
    WriteDone(v.geo, m0, size, start, buffer, Img(v, node.inode));
    if lock.offset > node.inode.size {
      node.inode.size := lock.offset;
      node.length := lock.offset;
    }
    count := |buffer| - (end - lock.offset);
  }

  /** old[..at] + bytes + old[at + |bytes|..] */
  function Spliced(s: seq<byte>, at: nat, bytes: seq<byte>): seq<byte>
    requires at <= |s|
  {
    s[..at] + bytes + if at + |bytes| <= |s| then s[at + |bytes|..] else []
  }

  lemma LimitFits(geo: Geometry)
    requires geo.Ok()
    ensures ReaderLimit(geo.Pointers()) < WORD
  {
    TimesIsProduct(256, 256);
    TimesIsProduct(512, 512);
    TimesIsProduct(1024, 1024);
  }

  /** One round of the loop of ext2_Write. */
  method WriteRound(v: Volume, group: nat, lock: FSLock, inode: Inode, buffer: seq<byte>, bi: Word, end: nat,
                    inodeBlocks: nat,
                    ghost start: nat) returns (ghost from: nat, ghost chunk: seq<byte>)
    requires group < |v.groups| && end == start + |buffer| && start <= lock.offset <= end
    requires ImageOk(v.geo, Img(v, inode)) && bi < ReaderLimit(v.geo.Pointers())
    requires bi < inodeBlocks ==> BlockOf(v.geo, Img(v, inode), bi) != 0
    requires Missing(Img(v, inode), Route(v.geo.Pointers(), bi)) <= v.freeBlocks
    requires Quotient(start, v.geo.blockSize) <= bi && Times(v.geo.blockSize, bi) < end
    requires lock.offset == if bi == Quotient(start, v.geo.blockSize)
               then start else Min(end, Times(v.geo.blockSize, bi))
    modifies v`groups, v`freeBlocks, v`disk, v`fileErr, lock`offset, inode`blocks, inode`block
    ensures RoundDone(v.geo, start, buffer, old(Img(v, inode)), old(inode.blocks), bi, old(lock.offset), from, chunk,
                      Img(v, inode), inode.blocks)
    ensures OtherFilesKept(v.geo, old(Img(v, inode)), Img(v, inode))
    ensures lock.offset == old(lock.offset) + |chunk| && |v.groups| == |old(v.groups)|
  {
    hide ImageOk, Missing, OtherFilesKept, Patched, OnlyWayFilled, BlockOf;
    var first, to := ChunkRange(v.geo.blockSize, bi, end, lock.offset, start);
    var delta := to - first;
    var done := |buffer| - (end - lock.offset);
    from, chunk := first, buffer[done..done + delta];
    WriteChunk(v, group, inode, bi, inodeBlocks, first, buffer[done..done + delta]);
    lock.offset := lock.offset + delta;
  }

  /** The same between two states of the loop. */
  method WriteNext(v: Volume, group: nat, lock: FSLock, inode: Inode, buffer: seq<byte>, bi: nat, end: nat,
                   inodeBlocks: nat,
                   ghost m0: Image, ghost size: nat, ghost start: nat)
    requires group < |v.groups| && v.geo.Ok() && end == start + |buffer| && Times(v.geo.blockSize, bi) < end
    requires WriteState(v.geo, m0, size, start, buffer, Img(v, inode), inode.blocks, bi, lock.offset)
    requires inodeBlocks == BlocksForSize(v.geo.blockSize, size)
    modifies v`groups, v`freeBlocks, v`disk, v`fileErr, lock`offset, inode`blocks, inode`block
    ensures WriteState(v.geo, m0, size, start, buffer, Img(v, inode), inode.blocks, bi + 1, lock.offset)
    ensures OtherFilesKept(v.geo, old(Img(v, inode)), Img(v, inode))
    ensures |v.groups| == |old(v.groups)|
  {
    hide WriteState, RoundDone, OtherFilesKept, ImageOk, BlockOf, Missing, Times, Quotient;
    ghost var m, off, blocks := Img(v, inode), lock.offset, inode.blocks;
    RoundReady(v.geo, m0, size, start, buffer, m, blocks, bi, off);
    ghost var from, chunk := WriteRound(v, group, lock, inode, buffer, bi, end, inodeBlocks, start);
    RoundKeeps(v.geo, m0, size, start, buffer, m, blocks, bi, off, from, chunk, Img(v, inode), inode.blocks);
  }

  /** `from` and `to` in the loop. */
  method ChunkRange(bs: nat, bi: nat, end: nat, offset: nat, ghost start: nat) returns (from: nat, to: nat)
    requires bs > 0 && start <= end && Quotient(start, bs) <= bi && Times(bs, bi) < end
    requires offset == if bi == Quotient(start, bs) then start else Min(end, Times(bs, bi))
    ensures from == Rest(offset, bs) && from <= to <= bs
    ensures offset == Times(bs, bi) + from && Times(bs, bi) + to == Min(end, Times(bs, bi + 1))
  {
    ChunkBounds(bs, start, end, bi, offset);
    QuotientIsDivision(offset, bs);
    QuotientIsDivision(end, bs);
    from := offset % bs;
    to := if Times(bs, bi + 1) < end then bs else end % bs;
    if to == 0 {
      to := bs;
    }
  }

  /** In the loop the next block exists or can be allocated. */
  lemma RoundReady(geo: Geometry, m0: Image, size: nat, start: nat, buf: seq<byte>, m: Image, blocks: int, bi: nat,
                   off: nat)
    requires geo.Ok() && WriteState(geo, m0, size, start, buf, m, blocks, bi, off)
    requires Times(geo.blockSize, bi) < start + |buf|
    ensures bi < ReaderLimit(geo.Pointers()) && bi < WORD && ImageOk(geo, m)
    ensures Quotient(start, geo.blockSize) <= bi && start <= off <= start + |buf|
    ensures off == if bi == Quotient(start, geo.blockSize) then start else Min(start + |buf|, Times(geo.blockSize, bi))
    ensures bi < BlocksForSize(geo.blockSize, size) ==> BlockOf(geo, m, bi) != 0
    ensures Missing(m, Route(geo.Pointers(), bi)) <= m.freeBlocks
  {
    RoundLimits(geo, size, start + |buf|, bi, off);
    MissingForBlock(geo.Pointers(), m, bi, BlocksForSize(geo.blockSize, start + |buf|));
  }

  lemma MissingForBlock(p: nat, m: Image, bi: nat, hi: nat)
    requires p > 0 && bi < hi
    ensures Missing(m, Route(p, bi)) <= |MissingIn(p, m, bi, hi)|
  {
    MissingOfIs(m, Route(p, bi));
    Fewer(MissingOf(m, Route(p, bi)), MissingIn(p, m, bi, hi));
  }

  lemma WriteStarts(geo: Geometry, m: Image, size: nat, start: nat, buf: seq<byte>, blocks: int)
    requires FileOk(geo, m, size, blocks) && start <= size
    requires BlocksForSize(geo.blockSize, Max(size, start + |buf|)) <= ReaderLimit(geo.Pointers())
    requires |MissingIn(geo.Pointers(), m, Quotient(start, geo.blockSize),
                        BlocksForSize(geo.blockSize, start + |buf|))| <= m.freeBlocks
    ensures WriteState(geo, m, size, start, buf, m, blocks, Quotient(start, geo.blockSize), start)
    ensures OtherFilesKept(geo, m, m)
  {
    Position(start, geo.blockSize);
  }

  lemma WriteEnds(geo: Geometry, m0: Image, size: nat, start: nat, buf: seq<byte>, m: Image, blocks: int, bi: nat,
                  off: nat)
    requires geo.Ok() && WriteState(geo, m0, size, start, buf, m, blocks, bi, off)
    requires Times(geo.blockSize, bi) >= start + |buf|
    ensures off == start + |buf| && Progress(geo, m0, size, start, buf, m, off)
    ensures CountBlocks(geo, m, ReaderLimit(geo.Pointers())) <= blocks
  {
    Position(start, geo.blockSize);
  }

  /** The loop of ext2_Write. */
  method WriteLoop(v: Volume, group: nat, lock: FSLock, inode: Inode, buffer: seq<byte>)
    requires group < |v.groups| && lock.offset <= inode.size
    requires lock.offset + |buffer| + v.geo.blockSize <= WORD
    requires v.geo.Ok() && FileOk(v.geo, Img(v, inode), inode.size, inode.blocks)
    requires BlocksForSize(v.geo.blockSize, Max(inode.size, lock.offset + |buffer|)) <= ReaderLimit(v.geo.Pointers())
    requires |MissingIn(v.geo.Pointers(), Img(v, inode), Quotient(lock.offset, v.geo.blockSize),
                        BlocksForSize(v.geo.blockSize, lock.offset + |buffer|))| <= v.freeBlocks
    modifies v`groups, v`freeBlocks, v`disk, v`fileErr, lock`offset, inode`blocks, inode`block
    ensures lock.offset == old(lock.offset) + |buffer|
    ensures Progress(v.geo, old(Img(v, inode)), inode.size, old(lock.offset), buffer, Img(v, inode), lock.offset)
    ensures OtherFilesKept(v.geo, old(Img(v, inode)), Img(v, inode))
    ensures CountBlocks(v.geo, Img(v, inode), ReaderLimit(v.geo.Pointers())) <= inode.blocks
  {
    hide WriteState, OtherFilesKept, FileOk, MissingIn, Content, Progress;
    var bs, end := v.geo.blockSize, lock.offset + |buffer|;
    var inodeBlocks := BlocksForSize(bs, inode.size);
    var bi := Quotient(lock.offset, bs);
    ghost var m0, start, size := Img(v, inode), lock.offset, inode.size;
    WriteStarts(v.geo, m0, size, start, buffer, inode.blocks);
    while Times(bs, bi) < end
      invariant WriteState(v.geo, m0, size, start, buffer, Img(v, inode), inode.blocks, bi, lock.offset)
      invariant OtherFilesKept(v.geo, m0, Img(v, inode))
      invariant |v.groups| == |m0.groups| && inode.size == size
      decreases end - Times(bs, bi)
    {
      ghost var m := Img(v, inode);
      WriteNext(v, group, lock, inode, buffer, bi, end, inodeBlocks, m0, size, start);
      OtherFilesKeptOn(v.geo, m0, m, Img(v, inode));
      bi := bi + 1;
    }
    WriteEnds(v.geo, m0, size, start, buffer, Img(v, inode), inode.blocks, bi, lock.offset);
  }

  // ---------------------------------------------------------------- ext2_ReadData

  /** ext2_GetBlockINode: the bytes of a block of the file, or a null pointer. */
  method GetBlockINode(v: Volume, inode: Inode, blockNo: Word) returns (found: bool, data: seq<byte>)
    requires ImageOk(v.geo, Img(v, inode)) && blockNo < ReaderLimit(v.geo.Pointers())
    requires WayExists(Img(v, inode), Route(v.geo.Pointers(), blockNo))
    ensures found <==> blockNo < inode.blocks && BlockOf(v.geo, Img(v, inode), blockNo) != 0
    ensures found ==> data == BlockBytes(v.geo, Img(v, inode), blockNo) && |data| == v.geo.blockSize
  {
    found, data := false, [];
    if blockNo >= inode.blocks {
      return;
    }
    var realBlock := GetBlockNumber(v, inode, blockNo);
    if realBlock == 0 {
      return;
    }
    ReaderWithinWriter(v.geo.Pointers());
    DataIsStable(v.geo, Img(v, inode), blockNo);
    BlockIsWhole(v.geo, Img(v, inode), blockNo);
    found, data := true, BytesOf(v.disk[realBlock]);
  }

  /** CopyMem */
  method CopyMem(data: seq<byte>, buffer: array<byte>, at: nat)
    requires at + |data| <= buffer.Length
    modifies buffer
    ensures forall i :: 0 <= i < buffer.Length ==>
              buffer[i] == if at <= i < at + |data| then data[i - at] else old(buffer[i])
  {
    forall i | 0 <= i < |data| {
      buffer[at + i] := data[i];
    }
  }

  /** The first `n` bytes of the buffer are those of the file from `offset` on. */
  ghost predicate Copied(geo: Geometry, m: Image, offset: nat, buffer: seq<byte>, before: seq<byte>, n: nat)
    requires geo.Ok()
  {
    && |buffer| == |before|
    && forall i {:trigger buffer[i]} :: 0 <= i < |buffer| ==>
      buffer[i] == if i < n then ByteAt(geo, m, offset + i) else before[i]
  }

  /** One block of the file goes to the buffer: the part of it from `from` to `to`. */
  method CopyBlock(v: Volume, inode: Inode, size: nat, offset: nat, bo: Word, from: nat, to: nat, at: nat,
                   buffer: array<byte>,
                   ghost m: Image, ghost before: seq<byte>)
    requires v.geo.Ok() && m == Img(v, inode) && FileOk(v.geo, m, size, inode.blocks)
    requires bo < BlocksForSize(v.geo.blockSize, size)
    requires from <= to <= v.geo.blockSize && at + (to - from) <= buffer.Length
    requires offset + at == Times(v.geo.blockSize, bo) + from
    requires Copied(v.geo, m, offset, buffer[..], before, at)
    modifies buffer
    ensures Copied(v.geo, m, offset, buffer[..], before, at + (to - from))
  {
    BlockReadable(v.geo, m, size, inode.blocks, bo);
    var found, data := GetBlockINode(v, inode, bo);
    ghost var now := buffer[..];
    CopyMem(data[from..to], buffer, at);
    CopiedMore(v.geo, m, offset, bo, from, to, at, now, before, buffer[..]);
  }

  /** A block of the file can be read. */
  lemma BlockReadable(geo: Geometry, m: Image, size: nat, blocks: int, bo: nat)
    requires geo.Ok() && FileOk(geo, m, size, blocks) && bo < BlocksForSize(geo.blockSize, size)
    ensures bo < ReaderLimit(geo.Pointers()) && bo < blocks && BlockOf(geo, m, bo) != 0
    ensures WayExists(m, Route(geo.Pointers(), bo)) && |BlockBytes(geo, m, bo)| == geo.blockSize
  {
    ReaderWithinWriter(geo.Pointers());
    assert BlockOf(geo, m, bo) != 0;
    DataIsStable(geo, m, bo);
    BlockIsWhole(geo, m, bo);
    MappedAreCounted(geo, m, BlocksForSize(geo.blockSize, size), ReaderLimit(geo.Pointers()));
  }

  /** The bytes of a block are those of the file at its position. */
  lemma CopiedMore(geo: Geometry, m: Image, offset: nat, bo: nat, from: nat, to: nat, at: nat,
                   buffer: seq<byte>, before: seq<byte>, buffer': seq<byte>)
    requires geo.Ok() && |BlockBytes(geo, m, bo)| == geo.blockSize && from <= to <= geo.blockSize
    requires offset + at == Times(geo.blockSize, bo) + from && Copied(geo, m, offset, buffer, before, at)
    requires |buffer'| == |buffer| && forall i :: 0 <= i < |buffer'| ==>
               buffer'[i] == if at <= i < at + |BlockBytes(geo, m, bo)[from..to]|
                 then BlockBytes(geo, m, bo)[from..to][i - at] else buffer[i]
    ensures Copied(geo, m, offset, buffer', before, at + (to - from))
  {
    forall i {:trigger buffer'[i]} | 0 <= i < |buffer'|
      ensures buffer'[i] == if i < at + (to - from) then ByteAt(geo, m, offset + i) else before[i]
    {
      if at <= i < at + (to - from) {
        RestAt(bo, from + (i - at), geo.blockSize);
        assert offset + i == Times(geo.blockSize, bo) + (from + (i - at));
      } else {
        assert buffer'[i] == buffer[i];
      }
    }
  }

  /** How many bytes a read copies. When it spans several blocks and ends on a block boundary,
      the last block is left out. */
  function CopiedBy(bs: nat, offset: nat, end: nat): nat
    requires bs > 0 && offset <= end
  {
    if offset == end then 0
    else if Quotient(offset, bs) == Quotient(end - 1, bs) || Rest(end, bs) != 0 then end - offset
    else if end - offset >= bs then end - offset - bs else 0
  }

  /** In plain terms: all bytes of a range within one block, or of one that does not end on a boundary,
      and else all but those of its last block. */
  lemma CopiedIs(bs: nat, offset: nat, end: nat)
    requires bs > 0 && offset < end
    ensures var first, last := Quotient(offset, bs), Quotient(end - 1, bs);
            CopiedBy(bs, offset, end) ==
            if first == last || Rest(end, bs) != 0 then end - offset else Times(bs, last) - offset
  {
    var first, last := Quotient(offset, bs), Quotient(end - 1, bs);
    RangeFacts(bs, offset, end);
    if first < last {
      TimesMonotone(bs, first + 1, last);
    }
  }

  /** The bytes that precede block `bo` in a read from `offset`. */
  function Before(bs: nat, offset: nat, bo: nat): nat {
    if Times(bs, bo) >= offset then Times(bs, bo) - offset else 0
  }

  /** start_block, end_block and end_size of ext2_ReadData. */
  lemma RangeFacts(bs: nat, offset: nat, end: nat)
    requires bs > 0 && offset < end
    ensures var first, endSize := Quotient(offset, bs), end - Times(bs, Quotient(end, bs));
            var last := Quotient(end, bs) - (if endSize == 0 then 1 else 0);
            && endSize == Rest(end, bs) && last == Quotient(end - 1, bs) && first <= last
            && offset == Times(bs, first) + Rest(offset, bs)
              && end == Times(bs, last) + (if endSize == 0 then bs else endSize)
            && CopiedBy(bs, offset, end) == if first == last then end - offset else Before(bs, offset, last) + endSize
  {
    Position(end, bs);
    Position(offset, bs);
    if Rest(end, bs) == 0 {
      if Quotient(end, bs) > 0 {
        RestAt(Quotient(end, bs) - 1, bs - 1, bs);
      }
    } else {
      RestAt(Quotient(end, bs), Rest(end, bs) - 1, bs);
    }
    QuotientBelow(offset, bs, Quotient(end - 1, bs) + 1);
    QuotientBelow(end - 1, bs, Quotient(end - 1, bs) + 1);
    QuotientBelow(offset, bs, Quotient(end - 1, bs));
  }

  /** One round of the loop of ext2_ReadData. */
  method CopyNext(v: Volume, inode: Inode, offset: nat, startBlock: nat, bo: nat, blocksRead: nat, buffer: array<byte>,
                  ghost m: Image, ghost before: seq<byte>)
    requires v.geo.Ok() && m == Img(v, inode) && FileOk(v.geo, m, inode.size, inode.blocks)
    requires bo < BlocksForSize(v.geo.blockSize, inode.size)
    requires startBlock == Quotient(offset, v.geo.blockSize) && bo == startBlock + blocksRead
    requires Before(v.geo.blockSize, offset, bo + 1) <= buffer.Length
    requires Copied(v.geo, m, offset, buffer[..], before, Before(v.geo.blockSize, offset, bo))
    modifies buffer
    ensures Copied(v.geo, m, offset, buffer[..], before, Before(v.geo.blockSize, offset, bo + 1))
  {
    var bs := v.geo.blockSize;
    Position(offset, bs);
    LimitFits(v.geo);
    if bo == startBlock {
      CopyBlock(v, inode, inode.size, offset, bo, Rest(offset, bs), bs, 0, buffer, m, before);
    } else {
      TimesAdds(bs, startBlock, blocksRead);
      TimesMonotone(bs, 1, blocksRead);
      CopyBlock(v, inode, inode.size, offset, bo, 0, bs, Times(bs, blocksRead) - Rest(offset, bs), buffer, m, before);
    }
  }

  /** The loop of ext2_ReadData over the blocks before the last. */
  method CopyBlocks(v: Volume, inode: Inode, offset: nat, startBlock: nat, endBlock: nat, buffer: array<byte>,
                    ghost m: Image)
    returns (blocksRead: nat)
    requires v.geo.Ok() && m == Img(v, inode) && FileOk(v.geo, m, inode.size, inode.blocks)
    requires startBlock < endBlock < BlocksForSize(v.geo.blockSize, inode.size)
    requires startBlock == Quotient(offset, v.geo.blockSize)
    requires Before(v.geo.blockSize, offset, endBlock) <= buffer.Length
    modifies buffer
    ensures blocksRead == endBlock - startBlock
    ensures Copied(v.geo, m, offset, buffer[..], old(buffer[..]), Before(v.geo.blockSize, offset, endBlock))
  {
    hide Copied, FileOk;
    ghost var before := buffer[..];
    Position(offset, v.geo.blockSize);
    NothingCopied(v.geo, m, offset, before);
    blocksRead := 0;
    var bo := startBlock;
    while bo < endBlock
      invariant startBlock <= bo <= endBlock && blocksRead == bo - startBlock
      invariant m == Img(v, inode) && Copied(v.geo, m, offset, buffer[..], before, Before(v.geo.blockSize, offset, bo))
    {
      TimesMonotone(v.geo.blockSize, bo + 1, endBlock);
      CopyNext(v, inode, offset, startBlock, bo, blocksRead, buffer, m, before);
      bo, blocksRead := bo + 1, blocksRead + 1;
    }
  }

  /** The branch of ext2_ReadData for several blocks. */
  method ReadSeveral(v: Volume, inode: Inode, offset: nat, startBlock: nat, endBlock: nat, endSize: nat,
                     buffer: array<byte>, ghost m: Image)
    requires v.geo.Ok() && m == Img(v, inode) && FileOk(v.geo, m, inode.size, inode.blocks)
    requires startBlock == Quotient(offset, v.geo.blockSize)
    requires startBlock < endBlock < BlocksForSize(v.geo.blockSize, inode.size)
    requires endSize <= v.geo.blockSize && Before(v.geo.blockSize, offset, endBlock) + endSize <= buffer.Length
    modifies buffer
    ensures Copied(v.geo, m, offset, buffer[..], old(buffer[..]), Before(v.geo.blockSize, offset, endBlock) + endSize)
  {
    var bs := v.geo.blockSize;
    ghost var before := buffer[..];
    Position(offset, bs);
    LimitFits(v.geo);
    var blocksRead := CopyBlocks(v, inode, offset, startBlock, endBlock, buffer, m);
    TimesAdds(bs, startBlock, blocksRead);
    TimesMonotone(bs, 1, blocksRead);
    CopyBlock(v, inode, inode.size, offset, endBlock, 0, endSize, Times(bs, blocksRead) - Rest(offset, bs), buffer, m,
              before);
  }

  /** ext2_ReadData for a range that is not empty. */
  method ReadRange(v: Volume, inode: Inode, offset: nat, end: nat, buffer: array<byte>)
    requires v.geo.Ok() && FileOk(v.geo, Img(v, inode), inode.size, inode.blocks)
    requires offset < end <= inode.size && end - offset <= buffer.Length
    modifies buffer
    ensures Copied(v.geo, Img(v, inode), offset, buffer[..], old(buffer[..]), CopiedBy(v.geo.blockSize, offset, end))
  {
    hide FileOk, Copied, Quotient, Rest, Times;
    var bs := v.geo.blockSize;
    ghost var m, before := Img(v, inode), buffer[..];
    var startBlock, endBlock := Quotient(offset, bs), Quotient(end, bs);
    var endSize := end - Times(bs, endBlock);
    RangeFacts(bs, offset, end);
    LimitFits(v.geo);
    endBlock := if endSize == 0 then endBlock - 1 else endBlock;
    BlocksCover(bs, inode.size, endBlock);
    NothingCopied(v.geo, m, offset, before);
    BlocksInRange(v.geo, m, inode.size, inode.blocks, endBlock);
    if startBlock == endBlock {
      CopyBlock(v, inode, inode.size, offset, startBlock, Rest(offset, bs), Rest(offset, bs) + (end - offset), 0,
                buffer, m, before);
      return;
    }
    ReadSeveral(v, inode, offset, startBlock, endBlock, endSize, buffer, m);
  }

  lemma NothingCopied(geo: Geometry, m: Image, offset: nat, buffer: seq<byte>)
    requires geo.Ok()
    ensures Copied(geo, m, offset, buffer, buffer, 0)
  {
  }

  lemma BlocksInRange(geo: Geometry, m: Image, size: nat, blocks: int, bo: nat)
    requires geo.Ok() && FileOk(geo, m, size, blocks) && bo < BlocksForSize(geo.blockSize, size)
    ensures bo < WORD
  {
    LimitFits(geo);
  }

  /** ext2_ReadData. An empty range is copied, as no bytes at all, except at the start of the
      file, where the number of the last block wraps. */
  method ReadData(v: Volume, inode: Inode, offset: nat, size: nat, buffer: array<byte>) returns (count: nat)
    requires v.geo.Ok() && FileOk(v.geo, Img(v, inode), inode.size, inode.blocks)
    requires offset <= inode.size && offset + size < WORD && (offset == 0 ==> size > 0 && inode.size > 0)
    requires Min(offset + size, inode.size) - offset <= buffer.Length
    modifies buffer
    ensures count == Min(offset + size, inode.size) - offset
    ensures Copied(v.geo, Img(v, inode), offset, buffer[..], old(buffer[..]),
                   CopiedBy(v.geo.blockSize, offset, offset + count))
  {
    var end := if offset + size > inode.size then inode.size else offset + size;
    count := end - offset;
    if count > 0 {
      ReadRange(v, inode, offset, end, buffer);
    }
  }

  /** A complete read delivers the slice of the file. */
  lemma CompleteReadIsSlice(geo: Geometry, m: Image, size: nat, offset: nat, buffer: seq<byte>, before: seq<byte>,
                            n: nat)
    requires geo.Ok() && offset + n <= size && n <= |buffer| && Copied(geo, m, offset, buffer, before, n)
    ensures buffer[..n] == Content(geo, m, size)[offset..offset + n]
  {
    forall i | 0 <= i < n
      ensures buffer[..n][i] == Content(geo, m, size)[offset..offset + n][i]
    {
      assert buffer[i] == ByteAt(geo, m, offset + i);
    }
  }

  /** What arrives is the range of the file exactly when the range lies in one block or does not
      end on a block boundary. Before the read the last byte must differ, or nobody can tell. */
  lemma ReadIsComplete(geo: Geometry, m: Image, size: nat, offset: nat, end: nat, buffer: seq<byte>, before: seq<byte>)
    requires geo.Ok() && offset < end <= size && end - offset <= |before|
    requires Copied(geo, m, offset, buffer, before, CopiedBy(geo.blockSize, offset, end))
    requires before[end - offset - 1] != ByteAt(geo, m, end - 1)
    ensures buffer[..end - offset] == Content(geo, m, size)[offset..end] <==>
            Quotient(offset, geo.blockSize) == Quotient(end - 1, geo.blockSize) || Rest(end, geo.blockSize) != 0
  {
    var n := CopiedBy(geo.blockSize, offset, end);
    if n == end - offset {
      CompleteReadIsSlice(geo, m, size, offset, buffer, before, n);
    }
    assert buffer[end - offset - 1] == if end - offset - 1 < n
      then ByteAt(geo, m, end - 1) else before[end - offset - 1];
    assert buffer[..end - offset][end - offset - 1] == buffer[end - offset - 1];
    assert Content(geo, m, size)[offset..end][end - offset - 1] == ByteAt(geo, m, end - 1);
  }

  /** Reading back what was written: the slice of a spliced file is the buffer. */
  lemma SpliceThenSlice(s: seq<byte>, at: nat, bytes: seq<byte>)
    requires at <= |s|
    ensures Spliced(s, at, bytes)[at..at + |bytes|] == bytes
    ensures |Spliced(s, at, bytes)| == Max(|s|, at + |bytes|)
    ensures Spliced(s, at, bytes)[..at] == s[..at]
    ensures at + |bytes| <= |s| ==> Spliced(s, at, bytes)[at + |bytes|..] == s[at + |bytes|..]
  {
  }

  // ---------------------------------------------------------------- a new file

  lemma {:induction false} NoBlocks(geo: Geometry, m: Image, n: nat)
    requires geo.Ok() && n <= WriterLimit(geo.Pointers())
    requires forall q {:trigger At(m, q)} :: IsPlace(geo.Pointers(), q) ==> At(m, q) == 0
    ensures CountBlocks(geo, m, n) == 0
  {
    if n > 0 {
      NoBlocks(geo, m, n - 1);
      RouteIsPlace(geo.Pointers(), n - 1);
    }
  }

  /** A new inode is a consistent file without bytes, and has no block in common with any file. */
  lemma NewFileOk(geo: Geometry, m: Image)
    requires VolumeOk(geo, m.groups, m.freeBlocks, m.disk)
    ensures FileOk(geo, m.(ib := seq(15, _ => 0)), 0, 0) && Content(geo, m.(ib := seq(15, _ => 0)), 0) == []
    ensures OtherFile(geo, m, seq(15, _ => 0))
  {
    var n := m.(ib := seq(15, _ => 0));
    EmptyTree(geo, n);
    ReaderWithinWriter(geo.Pointers());
    NoBlocks(geo, n, ReaderLimit(geo.Pointers()));
  }
}
