/** The two halves of the block map: AddInodeDataBlock, which allocates the blocks on the way
    to block `i` of a file, and ext2_GetBlockNumber, which walks that way. */
module Ext2Map {
  import opened Machine
  import opened Arithmetic
  import opened Ext2Disk
  import opened Ext2Alloc
  import opened Ext2Tree

  // ---------------------------------------------------------------- the way to a block

  /** The number of blocks that the reader covers. */
  function ReaderLimit(p: nat): nat {
    EXT2_DIRECT_BLOCKS + p + Times(p, p) + p
  }

  /** The number of blocks for which the indices of the writer stay within their pointer block. */
  function WriterLimit(p: nat): nat {
    EXT2_DIRECT_BLOCKS + p + Times(p, p) + Times(p, p)
  }

  /** The way of the writer. In the last tree the first index is a quotient by p, not by p * p. */
  function Route(p: nat, i: nat): Place
    requires p > 0
  {
    var j := i - EXT2_DIRECT_BLOCKS;
    if j < 0 then [i]
    else if j < p then [12, j]
    else if j - p < Times(p, p) then [13, Quotient(j - p, p), Rest(j - p, p)]
    else TripleRoute(p, j - p - Times(p, p))
  }

  function TripleRoute(p: nat, k: nat): Place
    requires p > 0
  {
    [14, Quotient(k, p), Quotient(Rest(k, p), p), Rest(Rest(k, p), p)]
  }

  lemma QuotientBound(x: nat, n: nat, m: nat)
    requires n > 0 && x < Times(n, m)
    ensures Quotient(x, n) < m
  {
    QuotientAndRest(x, n);
    TimesIsProduct(n, m);
    if Quotient(x, n) >= m {
      TimesGrows(n, m, Quotient(x, n));
    }
  }

  lemma QuotientOfSmall(x: nat, n: nat)
    requires x < n
    ensures Quotient(x, n) == 0 && Rest(x, n) == x
  {
  }

  lemma RouteIsPlace(p: nat, i: nat)
    requires 0 < p && i < WriterLimit(p)
    ensures IsPlace(p, Route(p, i)) && |Route(p, i)| == Depth(Route(p, i)[0])
  {
    var j := i - EXT2_DIRECT_BLOCKS;
    if p <= j && j - p < Times(p, p) {
      QuotientBound(j - p, p, p);
    } else if p <= j {
      var k := j - p - Times(p, p);
      QuotientBound(k, p, p);
      QuotientOfSmall(Rest(k, p), p);
    }
  }

  /** Different blocks of the file have different ways. */
  lemma RoutesDiffer(p: nat, i: nat, j: nat)
    requires 0 < p && i < WriterLimit(p) && j < WriterLimit(p) && Route(p, i) == Route(p, j)
    ensures i == j
  {
    var a, b := i - EXT2_DIRECT_BLOCKS, j - EXT2_DIRECT_BLOCKS;
    assert Route(p, i)[0] == Route(p, j)[0] && |Route(p, i)| == |Route(p, j)|;
    if p <= a && a - p < Times(p, p) {
      QuotientAndRest(a - p, p);
      QuotientAndRest(b - p, p);
      assert Route(p, i)[1] == Route(p, j)[1] && Route(p, i)[2] == Route(p, j)[2];
    } else if p <= a {
      var c, d := a - p - Times(p, p), b - p - Times(p, p);
      QuotientAndRest(c, p);
      QuotientAndRest(d, p);
      QuotientOfSmall(Rest(c, p), p);
      QuotientOfSmall(Rest(d, p), p);
      assert Route(p, i)[1] == Route(p, j)[1] && Route(p, i)[3] == Route(p, j)[3];
    } else if 0 <= a {
      assert Route(p, i)[1] == Route(p, j)[1];
    } else {
      assert Route(p, i)[0] == i && Route(p, j)[0] == j;
    }
  }

  // ---------------------------------------------------------------- growing along a way

  predicate IsPrefix(q: Place, r: Place) {
    |q| <= |r| && q == r[..|q|]
  }

  /** How many blocks are missing on the way to `r`. */
  function Missing(m: Image, r: Place): nat
    decreases |r|
  {
    if r == [] then 0 else Missing(m, Parent(r)) + (if At(m, r) == 0 then 1 else 0)
  }

  /** The way to `r` is complete; every place off the way and every block that was there
      before is as it was. */
  ghost predicate Extended(geo: Geometry, m: Image, r: Place, m': Image) {
    && ImageOk(geo, m')
    && (forall q {:trigger At(m', q)} :: IsPlace(geo.Pointers(), q) && (At(m, q) != 0 || !IsPrefix(q, r)) ==>
          At(m', q) == At(m, q))
    && (forall q {:trigger At(m', q)} :: IsPlace(geo.Pointers(), q) && IsPrefix(q, r) ==> At(m', q) != 0)
    && m'.freeBlocks == m.freeBlocks - Missing(m, r)
    && |m'.groups| == |m.groups|
    && StableKept(geo, m, m') && OnlyTaken(geo, m, m')
  }

  lemma ExtendedByOne(geo: Geometry, m: Image, k: nat, m': Image)
    requires geo.Ok() && k < 15 && Grown(geo, m, [k], m')
    ensures Extended(geo, m, [k], m')
  {
    assert Parent([k]) == [];
  }

  lemma ExtendedFurther(geo: Geometry, m: Image, r: Place, m1: Image, m2: Image)
    requires geo.Ok() && IsPlace(geo.Pointers(), r) && |r| > 1
    requires Extended(geo, m, Parent(r), m1) && Grown(geo, m1, r, m2)
    ensures Extended(geo, m, r, m2)
  {
    assert !IsPrefix(r, Parent(r)) && At(m1, r) == At(m, r);
    forall q {:trigger At(m2, q)} | IsPlace(geo.Pointers(), q)
      ensures At(m, q) != 0 || !IsPrefix(q, r) ==> At(m2, q) == At(m, q)
      ensures IsPrefix(q, r) ==> At(m2, q) != 0
    {
      if IsPrefix(q, r) && q != r {
        assert IsPrefix(q, Parent(r));
      } else if !IsPrefix(q, r) {
        assert !IsPrefix(q, Parent(r));
      }
      assert At(m1, q) == At(m1, q);
    }
    forall b {:trigger Stable(geo, m, b)} | Stable(geo, m, b)
      ensures Stable(geo, m2, b) && m2.disk[b] == m.disk[b]
    {
      assert Stable(geo, m1, b);
    }
  }

  /** The blocks of pointers on the way exist. Without them the reader follows a null pointer. */
  ghost predicate WayExists(m: Image, r: Place) {
    forall k :: 1 <= k < |r| ==> At(m, r[..k]) != 0
  }

  // ---------------------------------------------------------------- the layout on the disk

  /** An entry of a block of pointers is the word of that number; block 0 has no entries. */
  lemma PointerIsWord(disk: map<nat, Block>, b: nat, k: nat)
    ensures b != 0 && b in disk && disk[b].Words? && k < |disk[b].words| ==> Pointer(disk, b, k) == disk[b].words[k]
    ensures b == 0 ==> Pointer(disk, b, k) == 0
  {
  }

  lemma RootsAre(m: Image, k: nat, a: nat, b: nat, c: nat)
    ensures k < |m.ib| ==> At(m, [k]) == m.ib[k]
    ensures At(m, [k, a]) == Pointer(m.disk, At(m, [k]), a)
    ensures At(m, [k, a, b]) == Pointer(m.disk, At(m, [k, a]), b)
    ensures At(m, [k, a, b, c]) == Pointer(m.disk, At(m, [k, a, b]), c)
  {
    assert Parent([k, a]) == [k] && Parent([k, a, b]) == [k, a] && Parent([k, a, b, c]) == [k, a, b];
  }

  /** Where block `i` of a file is: the first twelve blocks are the entries of the inode, the next p
      are the words of the block in entry 12, the next p * p are the words of the blocks in the words
      of the one in entry 13, and from there on the tree in entry 14 is used. Times, Quotient and Rest
      are the product and the division of Arithmetic. */
  lemma LayoutIs(p: nat, m: Image, i: nat)
    requires p > 0 && |m.ib| == 15
    ensures i < 12 ==> At(m, Route(p, i)) == m.ib[i]
    ensures 12 <= i < 12 + p ==> At(m, Route(p, i)) == Pointer(m.disk, m.ib[12], i - 12)
    ensures 12 + p <= i < 12 + p + Times(p, p) ==>
              var k := i - 12 - p;
              At(m, Route(p, i)) == Pointer(m.disk, Pointer(m.disk, m.ib[13], Quotient(k, p)), Rest(k, p))
    ensures 12 + p + Times(p, p) <= i ==>
              var k := i - 12 - p - Times(p, p);
              At(m, Route(p, i)) ==
                Pointer(m.disk, Pointer(m.disk, Pointer(m.disk, m.ib[14], Quotient(k, p)), 0), Rest(k, p))
  {
    if i < 12 {
      RootsAre(m, i, 0, 0, 0);
    } else if i < 12 + p {
      RootsAre(m, 12, i - 12, 0, 0);
    } else if i < 12 + p + Times(p, p) {
      DoubleIs(p, m, i - 12 - p);
    } else {
      TripleIs(p, m, i - 12 - p - Times(p, p));
    }
  }

  /** The ways in the trees of entries 13 and 14, in plain arithmetic. */
  lemma RouteOf(p: nat, a: nat, b: nat)
    requires a < p && b < p
    ensures 0 <= p * a && Route(p, 12 + b) == [12, b]
    ensures Route(p, 12 + p + (p * a + b)) == [13, a, b]
    ensures 0 <= p * p && Route(p, 12 + p + p * p + (p * a + b)) == [14, a, 0, b]
  {
    TimesIsProduct(p, p);
    QuotientOf(a, b, p);
    QuotientOfSmall(b, p);
    TimesGrows(p, a + 1, p);
    assert p * (a + 1) == p * a + p;
  }

  lemma DoubleIs(p: nat, m: Image, k: nat)
    requires p > 0 && |m.ib| == 15
    ensures At(m, [13, Quotient(k, p), Rest(k, p)]) ==
              Pointer(m.disk, Pointer(m.disk, m.ib[13], Quotient(k, p)), Rest(k, p))
  {
    RootsAre(m, 13, Quotient(k, p), Rest(k, p), 0);
  }

  lemma TripleIs(p: nat, m: Image, k: nat)
    requires p > 0 && |m.ib| == 15
    ensures At(m, TripleRoute(p, k)) ==
            Pointer(m.disk, Pointer(m.disk, Pointer(m.disk, m.ib[14], Quotient(k, p)), 0), Rest(k, p))
  {
    QuotientOfSmall(Rest(k, p), p);
    RootsAre(m, 14, Quotient(k, p), 0, Rest(k, p));
  }

  // ---------------------------------------------------------------- AddInodeDataBlock

  /** One AddIndirectPointer on the way. */
  method Step(v: Volume, group: nat, inode: Inode, indirect: Word, index: nat, clear: bool, ghost m: Image,
              ghost r: Place, ghost b0: int)
    returns (block: Word)
    requires ImageOk(v.geo, m) && group < |v.groups| && IsPlace(v.geo.Pointers(), r) && |r| > 1
    requires index == Last(r) && clear == Inner(r)
    requires Extended(v.geo, m, Parent(r), Img(v, inode)) && indirect == At(Img(v, inode), Parent(r))
    requires Missing(m, r) <= m.freeBlocks
    requires inode.blocks == b0 + Sectors(v.geo, Missing(m, Parent(r)))
    modifies v`groups, v`freeBlocks, v`disk, v`fileErr, inode`blocks
    ensures Extended(v.geo, m, r, Img(v, inode)) && block == At(Img(v, inode), r) && block != 0
    ensures inode.blocks == b0 + Sectors(v.geo, Missing(m, r))
    ensures v.fileErr == old(v.fileErr)
  {
    ghost var m1 := Img(v, inode);
    ParentIsPlace(v.geo.Pointers(), r);
    assert IsPrefix(Parent(r), Parent(r)) && !IsPrefix(r, Parent(r));
    assert At(m1, r) == At(m, r);
    block := AddIndirectPointer(v, group, inode, indirect, index, clear, r);
    ExtendedFurther(v.geo, m, r, m1, Img(v, inode));
  }

  lemma MissingOnWay(m: Image, r: Place, q: Place)
    requires IsPrefix(q, r)
    ensures Missing(m, q) <= Missing(m, r)
    decreases |r|
  {
    if q != r {
      assert IsPrefix(q, Parent(r));
      MissingOnWay(m, Parent(r), q);
    } else {
      assert r[..|r|] == r;
    }
  }

  /** The entry in the inode that starts a way. */
  method FirstStep(v: Volume, group: nat, inode: Inode, k: nat, clear: bool, ghost m: Image, ghost r: Place)
    returns (block: Word)
    requires m == Img(v, inode) && ImageOk(v.geo, m) && group < |v.groups|
    requires IsPlace(v.geo.Pointers(), r) && r[0] == k && clear == (k >= EXT2_DIRECT_BLOCKS)
    requires Missing(m, r) <= v.freeBlocks
    modifies v`groups, v`freeBlocks, v`disk, v`fileErr, inode`blocks, inode`block
    ensures Extended(v.geo, m, [k], Img(v, inode)) && block == At(Img(v, inode), [k]) && block != 0
    ensures inode.blocks == old(inode.blocks) + Sectors(v.geo, Missing(m, [k]))
    ensures v.fileErr == old(v.fileErr)
  {
    assert r[..1] == [k] && Parent([k]) == [];
    MissingOnWay(m, r, [k]);
    assert Sectors(v.geo, 1) == v.geo.blockSize / 512;
    block := RootBlock(v, group, inode, k, clear);
    ExtendedByOne(v.geo, m, k, Img(v, inode));
  }

  /** AddInodeDataBlock: block `i` of the file and all blocks on the way to it exist
      afterwards; those that did stay, and so does every other block. */
  method AddInodeDataBlock(v: Volume, group: nat, inode: Inode, i: Word) returns (block: Word)
    requires ImageOk(v.geo, Img(v, inode)) && group < |v.groups|
    requires i < WriterLimit(v.geo.Pointers()) ==> Missing(Img(v, inode), Route(v.geo.Pointers(), i)) <= v.freeBlocks
    requires var p := v.geo.Pointers();
             i < WriterLimit(p) || i >= EXT2_DIRECT_BLOCKS + p + Times(p, p) + Times(Times(p, p), p)
    modifies v`groups, v`freeBlocks, v`disk, v`fileErr, inode`blocks, inode`block
    ensures i < WriterLimit(v.geo.Pointers()) ==>
              var r := Route(v.geo.Pointers(), i);
              && Extended(v.geo, old(Img(v, inode)), r, Img(v, inode))
              && block == At(Img(v, inode), r) && block != 0 && v.fileErr == old(v.fileErr)
              && inode.blocks == old(inode.blocks) + Sectors(v.geo, Missing(old(Img(v, inode)), r))
    ensures i >= WriterLimit(v.geo.Pointers()) ==>
              block == 0 && v.fileErr == ObjectTooLarge && Img(v, inode) == old(Img(v, inode))
                && inode.blocks == old(inode.blocks)
    // where the block is entered
    ensures v.geo.Pointers() > 0 && |inode.block| == 15
    ensures i < 12 ==> block == inode.block[i] != 0
    ensures var p := v.geo.Pointers();
            12 <= i < 12 + p ==> block == Pointer(v.disk, inode.block[12], i - 12) != 0
    ensures var p := v.geo.Pointers(); var k := i - 12 - p;
            12 + p <= i < 12 + p + Times(p, p) ==>
              block == Pointer(v.disk, Pointer(v.disk, inode.block[13], Quotient(k, p)), Rest(k, p)) != 0
    ensures var p := v.geo.Pointers(); var k := i - 12 - p - Times(p, p);
            12 + p + Times(p, p) <= i < 12 + p + Times(p, p) + Times(p, p) ==>
              block == Pointer(v.disk, Pointer(v.disk, Pointer(v.disk, inode.block[14], Quotient(k, p)), 0),
                               Rest(k, p)) != 0
    ensures var p := v.geo.Pointers();
            12 + p + Times(p, p) + Times(p, p) <= i ==> block == 0 && v.fileErr == ObjectTooLarge
  {
    block := AllocateOnWay(v, group, inode, i);
    LayoutIs(v.geo.Pointers(), Img(v, inode), i);
  }

  method AllocateOnWay(v: Volume, group: nat, inode: Inode, i: Word) returns (block: Word)
    requires ImageOk(v.geo, Img(v, inode)) && group < |v.groups|
    requires i < WriterLimit(v.geo.Pointers()) ==> Missing(Img(v, inode), Route(v.geo.Pointers(), i)) <= v.freeBlocks
    requires var p := v.geo.Pointers();
             i < WriterLimit(p) || i >= EXT2_DIRECT_BLOCKS + p + Times(p, p) + Times(Times(p, p), p)
    modifies v`groups, v`freeBlocks, v`disk, v`fileErr, inode`blocks, inode`block
    ensures i < WriterLimit(v.geo.Pointers()) ==>
              var r := Route(v.geo.Pointers(), i);
              && Extended(v.geo, old(Img(v, inode)), r, Img(v, inode))
              && block == At(Img(v, inode), r) && block != 0 && v.fileErr == old(v.fileErr)
              && inode.blocks == old(inode.blocks) + Sectors(v.geo, Missing(old(Img(v, inode)), r))
    ensures i >= WriterLimit(v.geo.Pointers()) ==>
              block == 0 && v.fileErr == ObjectTooLarge && Img(v, inode) == old(Img(v, inode))
                && inode.blocks == old(inode.blocks)
  {
    var bptrs := v.geo.Pointers();
    var j: int := i - EXT2_DIRECT_BLOCKS;
    if j < 0 {
      RouteIsPlace(bptrs, i);
      block := DirectBlock(v, group, inode, i);
      return;
    }
    if j < bptrs {
      RouteIsPlace(bptrs, i);
      block := SingleBlock(v, group, inode, j);
      return;
    }
    j := j - bptrs;
    if j < Times(bptrs, bptrs) {
      RouteIsPlace(bptrs, i);
      assert Route(bptrs, i)[1] == Quotient(j, bptrs);
      block := DoubleBlock(v, group, inode, j);
      return;
    }
    j := j - Times(bptrs, bptrs);
    if j < Times(Times(bptrs, bptrs), bptrs) {
      RouteIsPlace(bptrs, i);
      assert Route(bptrs, i)[1] == Quotient(j, bptrs);
      block := TripleBlock(v, group, inode, j);
      return;
    }
    v.fileErr := ObjectTooLarge;
    block := 0;
  }

  /** The four branches of AddInodeDataBlock. */
  method DirectBlock(v: Volume, group: nat, inode: Inode, i: nat) returns (block: Word)
    requires ImageOk(v.geo, Img(v, inode)) && group < |v.groups| && i < EXT2_DIRECT_BLOCKS
    requires Missing(Img(v, inode), [i]) <= v.freeBlocks
    modifies v`groups, v`freeBlocks, v`disk, v`fileErr, inode`blocks, inode`block
    ensures Extended(v.geo, old(Img(v, inode)), [i], Img(v, inode)) && block == At(Img(v, inode), [i]) && block != 0
    ensures inode.blocks == old(inode.blocks) + Sectors(v.geo, Missing(old(Img(v, inode)), [i]))
    ensures v.fileErr == old(v.fileErr)
  {
    block := FirstStep(v, group, inode, i, false, Img(v, inode), [i]);
  }

  method SingleBlock(v: Volume, group: nat, inode: Inode, j: nat) returns (block: Word)
    requires ImageOk(v.geo, Img(v, inode)) && group < |v.groups| && j < v.geo.Pointers()
    requires Missing(Img(v, inode), [12, j]) <= v.freeBlocks
    modifies v`groups, v`freeBlocks, v`disk, v`fileErr, inode`blocks, inode`block
    ensures Extended(v.geo, old(Img(v, inode)), [12, j], Img(v, inode)) && block == At(Img(v, inode), [12, j])
    ensures block != 0
    ensures inode.blocks == old(inode.blocks) + Sectors(v.geo, Missing(old(Img(v, inode)), [12, j]))
    ensures v.fileErr == old(v.fileErr)
  {
    ghost var m, b0 := Img(v, inode), inode.blocks;
    block := FirstStep(v, group, inode, EXT2_DIRECT_BLOCKS, true, m, [12, j]);
    assert Parent([12, j]) == [12];
    block := Step(v, group, inode, block, j, false, m, [12, j], b0);
  }

  method DoubleBlock(v: Volume, group: nat, inode: Inode, j: nat) returns (block: Word)
    requires ImageOk(v.geo, Img(v, inode)) && group < |v.groups| && Quotient(j, v.geo.Pointers()) < v.geo.Pointers()
    requires Missing(Img(v, inode), [13, Quotient(j, v.geo.Pointers()), Rest(j, v.geo.Pointers())]) <= v.freeBlocks
    modifies v`groups, v`freeBlocks, v`disk, v`fileErr, inode`blocks, inode`block
    ensures var r := [13, Quotient(j, v.geo.Pointers()), Rest(j, v.geo.Pointers())];
            && Extended(v.geo, old(Img(v, inode)), r, Img(v, inode)) && block == At(Img(v, inode), r) && block != 0
            && inode.blocks == old(inode.blocks) + Sectors(v.geo, Missing(old(Img(v, inode)), r))
    ensures v.fileErr == old(v.fileErr)
  {
    ghost var m, b0 := Img(v, inode), inode.blocks;
    var bptrs := v.geo.Pointers();
    QuotientIsDivision(j, bptrs);
    ghost var r := [13, Quotient(j, bptrs), Rest(j, bptrs)];
    assert Parent(r) == [13, Quotient(j, bptrs)] && Parent(Parent(r)) == [13];
    block := FirstStep(v, group, inode, EXT2_DIRECT_BLOCKS + 1, true, m, r);
    block := Step(v, group, inode, block, j / bptrs, true, m, Parent(r), b0);
    block := Step(v, group, inode, block, j % bptrs, false, m, r, b0);
  }

  method TripleBlock(v: Volume, group: nat, inode: Inode, j: nat) returns (block: Word)
    requires ImageOk(v.geo, Img(v, inode)) && group < |v.groups| && Quotient(j, v.geo.Pointers()) < v.geo.Pointers()
    requires Missing(Img(v, inode), TripleRoute(v.geo.Pointers(), j)) <= v.freeBlocks
    modifies v`groups, v`freeBlocks, v`disk, v`fileErr, inode`blocks, inode`block
    ensures var r := TripleRoute(v.geo.Pointers(), j);
            && Extended(v.geo, old(Img(v, inode)), r, Img(v, inode)) && block == At(Img(v, inode), r) && block != 0
            && inode.blocks == old(inode.blocks) + Sectors(v.geo, Missing(old(Img(v, inode)), r))
    ensures v.fileErr == old(v.fileErr)
  {
    ghost var m, b0 := Img(v, inode), inode.blocks;
    var bptrs := v.geo.Pointers();
    var j2 := j % bptrs;
    QuotientIsDivision(j, bptrs);
    QuotientIsDivision(j2, bptrs);
    QuotientOfSmall(j2, bptrs);
    ghost var r := TripleRoute(bptrs, j);
    assert Parent(r) == [14, Quotient(j, bptrs), Quotient(j2, bptrs)];
    assert Parent(Parent(r)) == [14, Quotient(j, bptrs)] && Parent(Parent(Parent(r))) == [14];
    block := FirstStep(v, group, inode, EXT2_DIRECT_BLOCKS + 2, true, m, r);
    block := Step(v, group, inode, block, j / bptrs, true, m, Parent(Parent(r)), b0);
    block := Step(v, group, inode, block, j2 / bptrs, true, m, Parent(r), b0);
    block := Step(v, group, inode, block, j2 % bptrs, false, m, r, b0);
  }

  // ---------------------------------------------------------------- ext2_GetBlockNumber

  /** ext2_GetBlock on a block of pointers, and one of its entries. */
  method Entry(v: Volume, inode: Inode, b: Word, k: nat, ghost r: Place) returns (w: Word)
    requires ImageOk(v.geo, Img(v, inode)) && IsPlace(v.geo.Pointers(), r) && |r| > 1 && k == Last(r)
    requires b != 0 && b == At(Img(v, inode), Parent(r))
    ensures w == At(Img(v, inode), r)
  {
    ParentIsPlace(v.geo.Pointers(), r);
    assert PlaceOk(v.geo, Img(v, inode), Parent(r));
    assert v.geo.SizeOk(v.disk[b]);
    w := v.disk[b].words[k];
  }

  method ReadDouble(v: Volume, inode: Inode, b: nat) returns (blknum: Word)
    requires ImageOk(v.geo, Img(v, inode))
    requires IsPlace(v.geo.Pointers(), [13, Quotient(b, v.geo.Pointers()), Rest(b, v.geo.Pointers())])
    requires WayExists(Img(v, inode), [13, Quotient(b, v.geo.Pointers()), Rest(b, v.geo.Pointers())])
    ensures blknum == At(Img(v, inode), [13, Quotient(b, v.geo.Pointers()), Rest(b, v.geo.Pointers())])
  {
    var p := v.geo.Pointers();
    QuotientIsDivision(b, p);
    QuotientAndRest(b, p);
    var c := b / p;
    var d := b - p * c;
    ghost var r := [13, c, d];
    assert Parent(r) == r[..2] == [13, c] && Parent([13, c]) == r[..1] == [13];
    var tmp := Entry(v, inode, inode.block[EXT2_DIRECT_BLOCKS + 1], c, [13, c]);
    blknum := Entry(v, inode, tmp, d, r);
  }

  method ReadTriple(v: Volume, inode: Inode, c: nat) returns (blknum: Word)
    requires ImageOk(v.geo, Img(v, inode)) && c < v.geo.Pointers()
    requires WayExists(Img(v, inode), [14, 0, 0, c])
    ensures blknum == At(Img(v, inode), [14, 0, 0, c])
  {
    var p := v.geo.Pointers();
    SmallDivision(c, p);
    var d := c / (p * p);
    var e := c - d * p * p;
    var f := e / p;
    var g := e - f * p;
    ghost var r := [14, 0, 0, c];
    assert Parent(r) == r[..3] == [14, 0, 0] && Parent([14, 0, 0]) == r[..2] == [14, 0]
      && Parent([14, 0]) == r[..1] == [14];
    var tmp := Entry(v, inode, inode.block[EXT2_DIRECT_BLOCKS + 2], d, [14, 0]);
    var tmp2 := Entry(v, inode, tmp, f, [14, 0, 0]);
    blknum := Entry(v, inode, tmp2, g, r);
  }

  lemma SmallDivision(c: nat, p: nat)
    requires c < p
    ensures c / p == 0 && p * p > 0 && c / (p * p) == 0
  {
    TimesGrows(p, 1, p);
  }

  /** ext2_GetBlockNumber */
  method GetBlockNumber(v: Volume, inode: Inode, iblock: Word) returns (r: Word)
    requires ImageOk(v.geo, Img(v, inode))
    requires iblock < ReaderLimit(v.geo.Pointers()) ==> WayExists(Img(v, inode), Route(v.geo.Pointers(), iblock))
    ensures r == if iblock < ReaderLimit(v.geo.Pointers())
              then At(Img(v, inode), Route(v.geo.Pointers(), iblock)) else 0
    // which word of the disk it is
    ensures v.geo.Pointers() > 0 && |inode.block| == 15
    ensures iblock < 12 ==> r == inode.block[iblock]
    ensures var p := v.geo.Pointers();
            12 <= iblock < 12 + p ==> r == Pointer(v.disk, inode.block[12], iblock - 12)
    ensures var p := v.geo.Pointers(); var k := iblock - 12 - p;
            12 + p <= iblock < 12 + p + Times(p, p) ==>
              r == Pointer(v.disk, Pointer(v.disk, inode.block[13], Quotient(k, p)), Rest(k, p))
    ensures var p := v.geo.Pointers(); var k := iblock - 12 - p - Times(p, p);
            12 + p + Times(p, p) <= iblock < 12 + p + Times(p, p) + p ==>
              r == Pointer(v.disk, Pointer(v.disk, Pointer(v.disk, inode.block[14], 0), 0), k)
    ensures var p := v.geo.Pointers();
            12 + p + Times(p, p) + p <= iblock ==> r == 0
  {
    r := WalkTo(v, inode, iblock);
    LayoutIs(v.geo.Pointers(), Img(v, inode), iblock);
  }

  method WalkTo(v: Volume, inode: Inode, iblock: Word) returns (r: Word)
    requires ImageOk(v.geo, Img(v, inode))
    requires iblock < ReaderLimit(v.geo.Pointers()) ==> WayExists(Img(v, inode), Route(v.geo.Pointers(), iblock))
    ensures r == if iblock < ReaderLimit(v.geo.Pointers())
              then At(Img(v, inode), Route(v.geo.Pointers(), iblock)) else 0
  {
    var p := v.geo.Pointers();
    if iblock < EXT2_DIRECT_BLOCKS {
      return inode.block[iblock];
    }
    if iblock < EXT2_DIRECT_BLOCKS + p {
      ghost var way := [12, iblock - EXT2_DIRECT_BLOCKS];
      assert Parent(way) == way[..1] == [12];
      r := Entry(v, inode, inode.block[EXT2_DIRECT_BLOCKS], iblock - EXT2_DIRECT_BLOCKS, way);
      return;
    }
    if iblock < EXT2_DIRECT_BLOCKS + p + Times(p, p) {
      TimesIsProduct(p, p);
      RouteIsPlace(p, iblock);
      r := ReadDouble(v, inode, iblock - EXT2_DIRECT_BLOCKS - p);
      return;
    }
    if iblock < EXT2_DIRECT_BLOCKS + p + Times(p, p) + p {
      QuotientOfSmall(iblock - EXT2_DIRECT_BLOCKS - p - Times(p, p), p);
      r := ReadTriple(v, inode, iblock - EXT2_DIRECT_BLOCKS - p - Times(p, p));
      return;
    }
    r := 0;
  }

  // ---------------------------------------------------------------- the halves agree

  /** What the reader returns, as GetBlockNumber promises it. */
  function ReaderBlock(p: nat, m: Image, i: nat): Word
    requires p > 0
  {
    if i < ReaderLimit(p) then At(m, Route(p, i)) else 0
  }

  lemma ReaderWithinWriter(p: nat)
    requires p > 0
    ensures ReaderLimit(p) <= WriterLimit(p)
  {
    TimesIsProduct(p, p);
    TimesGrows(p, 1, p);
  }

  /** After the writer has allocated block `i`, the reader finds that block exactly when `i` is
      in the reader's range. */
  lemma ReaderFindsWritten(geo: Geometry, m: Image, i: nat, m': Image, block: Word)
    requires geo.Ok() && i < WriterLimit(geo.Pointers()) && Extended(geo, m, Route(geo.Pointers(), i), m')
    requires block == At(m', Route(geo.Pointers(), i))
    ensures ReaderBlock(geo.Pointers(), m', i) == block <==> i < ReaderLimit(geo.Pointers())
    ensures WayExists(m', Route(geo.Pointers(), i))
  {
    var p := geo.Pointers();
    var r := Route(p, i);
    RouteIsPlace(p, i);
    assert IsPrefix(r, r);
    forall k | 1 <= k < |r|
      ensures At(m', r[..k]) != 0
    {
      assert IsPlace(p, r[..k]) && IsPrefix(r[..k], r);
    }
  }

  /** The first block that the writer allocates and the reader does not find, whatever the size of a
      block: the last tree of the reader is one level short. */
  lemma ReaderMissesFirst(geo: Geometry, m: Image, m': Image)
    requires geo.Ok() && geo.Pointers() > 1
    ensures ReaderLimit(geo.Pointers()) < WriterLimit(geo.Pointers())
    ensures Extended(geo, m, Route(geo.Pointers(), ReaderLimit(geo.Pointers())), m') ==>
              && At(m', Route(geo.Pointers(), ReaderLimit(geo.Pointers()))) != 0
              && ReaderBlock(geo.Pointers(), m', ReaderLimit(geo.Pointers())) == 0
  {
    var p := geo.Pointers();
    TimesIsProduct(p, p);
    assert p * p > p;
    if Extended(geo, m, Route(p, ReaderLimit(p)), m') {
      ReaderFindsWritten(geo, m, ReaderLimit(p), m', At(m', Route(p, ReaderLimit(p))));
    }
  }

  /** Every other block of the file is found where it was before. */
  lemma OthersStay(geo: Geometry, m: Image, i: nat, m': Image, j: nat)
    requires ImageOk(geo, m) && i < WriterLimit(geo.Pointers()) && j < WriterLimit(geo.Pointers()) && j != i
    requires Extended(geo, m, Route(geo.Pointers(), i), m')
    ensures ReaderBlock(geo.Pointers(), m', j) == ReaderBlock(geo.Pointers(), m, j)
    ensures At(m, Route(geo.Pointers(), j)) != 0 && WayExists(m, Route(geo.Pointers(), j)) ==>
              WayExists(m', Route(geo.Pointers(), j))
  {
    var p := geo.Pointers();
    var r, q := Route(p, i), Route(p, j);
    RouteIsPlace(p, i);
    RouteIsPlace(p, j);
    if IsPrefix(q, r) {
      assert q[0] == r[0] && q == r;
      RoutesDiffer(p, i, j);
    }
    forall k | 1 <= k < |q| && At(m, q[..k]) != 0
      ensures At(m', q[..k]) != 0
    {
      assert IsPlace(p, q[..k]);
    }
  }

  /** Mapped blocks of the file have their way; different ones have different blocks, and none
      of them is a block of pointers. */
  lemma MappedApart(geo: Geometry, m: Image, i: nat, j: nat)
    requires ImageOk(geo, m) && i < WriterLimit(geo.Pointers()) && j < WriterLimit(geo.Pointers()) && i != j
    requires At(m, Route(geo.Pointers(), i)) != 0
    ensures At(m, Route(geo.Pointers(), i)) != At(m, Route(geo.Pointers(), j))
    ensures Stable(geo, m, At(m, Route(geo.Pointers(), i)))
  {
    var p := geo.Pointers();
    RouteIsPlace(p, i);
    RouteIsPlace(p, j);
    if At(m, Route(p, i)) == At(m, Route(p, j)) {
      assert PlacesDiffer(m, Route(p, i), Route(p, j));
      RoutesDiffer(p, i, j);
    }
    DataIsStable(geo, m, i);
  }

  lemma DataIsStable(geo: Geometry, m: Image, i: nat)
    requires ImageOk(geo, m) && i < WriterLimit(geo.Pointers()) && At(m, Route(geo.Pointers(), i)) != 0
    ensures Stable(geo, m, At(m, Route(geo.Pointers(), i))) && WayExists(m, Route(geo.Pointers(), i))
  {
    var p := geo.Pointers();
    var r := Route(p, i);
    RouteIsPlace(p, i);
    assert PlaceOk(geo, m, r);
    forall pl {:trigger At(m, pl)} | IsPlace(p, pl) && Inner(pl)
      ensures At(m, pl) != At(m, r)
    {
      assert PlacesDiffer(m, r, pl);
    }
    MappedHasWay(m, r);
  }

  lemma {:induction false} MappedHasWay(m: Image, r: Place)
    requires At(m, r) != 0
    ensures WayExists(m, r)
    decreases |r|
  {
    if |r| > 1 {
      MappedHasWay(m, Parent(r));
      forall k | 1 <= k < |r|
        ensures At(m, r[..k]) != 0
      {
        assert k < |r| - 1 ==> r[..k] == Parent(r)[..k];
        assert k == |r| - 1 ==> r[..k] == Parent(r);
      }
    }
  }

  // ---------------------------------------------------------------- other files

  /** No block is in both trees. */
  ghost predicate Apart(p: nat, m: Image, n: Image) {
    forall q, r {:trigger At(m, q), At(n, r)} :: IsPlace(p, q) && IsPlace(p, r) && At(m, q) != 0 ==>
      At(m, q) != At(n, r)
  }

  lemma {:induction false} OtherAt(geo: Geometry, m: Image, r: Place, m': Image, n: Image, q: Place)
    requires geo.Ok() && Extended(geo, m, r, m') && IsPlace(geo.Pointers(), q)
    requires TreeOk(geo, n) && n.groups == m.groups && n.disk == m.disk && Apart(geo.Pointers(), m, n)
    ensures At(m'.(ib := n.ib), q) == At(n, q)
    ensures At(n, q) != 0 ==> Stable(geo, m, At(n, q))
    decreases |q|
  {
    assert PlaceOk(geo, n, q);
    if |q| > 1 {
      ParentIsPlace(geo.Pointers(), q);
      OtherAt(geo, m, r, m', n, Parent(q));
    }
  }

  /** Allocating for one file leaves the block map of every other file as it is. */
  lemma OtherFileKept(geo: Geometry, m: Image, r: Place, m': Image, n: Image)
    requires geo.Ok() && Extended(geo, m, r, m')
    requires TreeOk(geo, n) && n.groups == m.groups && n.disk == m.disk && Apart(geo.Pointers(), m, n)
    ensures TreeOk(geo, m'.(ib := n.ib)) && Apart(geo.Pointers(), m', m'.(ib := n.ib))
    ensures forall q {:trigger At(n, q)} :: IsPlace(geo.Pointers(), q) ==> At(m'.(ib := n.ib), q) == At(n, q)
    ensures forall q {:trigger At(n, q)} :: IsPlace(geo.Pointers(), q) && At(n, q) != 0 ==>
              At(n, q) in n.disk && At(n, q) in m'.disk && m'.disk[At(n, q)] == n.disk[At(n, q)]
  {
    var n' := m'.(ib := n.ib);
    forall q {:trigger At(n, q)} | IsPlace(geo.Pointers(), q)
      ensures At(n', q) == At(n, q) && (At(n, q) != 0 ==> Stable(geo, m, At(n, q)))
    {
      OtherAt(geo, m, r, m', n, q);
    }
    forall q {:trigger PlaceOk(geo, n', q)} | IsPlace(geo.Pointers(), q)
      ensures PlaceOk(geo, n', q)
    {
      assert PlaceOk(geo, n, q) && At(n, q) == At(n', q);
    }
    forall q, s {:trigger PlacesDiffer(n', q, s)} | IsPlace(geo.Pointers(), q) && IsPlace(geo.Pointers(), s)
      ensures PlacesDiffer(n', q, s)
    {
      assert PlacesDiffer(n, q, s) && At(n, q) == At(n', q) && At(n, s) == At(n', s);
    }
    forall q, s {:trigger At(m', q), At(n', s)} | IsPlace(geo.Pointers(), q) && IsPlace(geo.Pointers(), s)
      && At(m', q) != 0
      ensures At(m', q) != At(n', s)
    {
      assert At(n, s) == At(n', s) && PlaceOk(geo, n, s) && At(m, q) == At(m, q);
    }
  }

  /** A new inode has an empty tree. */
  lemma EmptyTree(geo: Geometry, m: Image)
    requires geo.Ok() && m.ib == seq(15, _ => 0)
    ensures TreeOk(geo, m) && forall q {:trigger At(m, q)} :: IsPlace(geo.Pointers(), q) ==> At(m, q) == 0
  {
    forall q | IsPlace(geo.Pointers(), q)
      ensures At(m, q) == 0
    {
      NothingThere(geo.Pointers(), m, q);
    }
  }

  lemma {:induction false} NothingThere(p: nat, m: Image, q: Place)
    requires m.ib == seq(15, _ => 0) && IsPlace(p, q)
    ensures At(m, q) == 0
    decreases |q|
  {
    if |q| > 1 {
      NothingThere(p, m, Parent(q));
    }
  }
}
