/** Insertion into and lookup in an ext2 directory. */
module Ext2Dir {
  import opened Machine
  import opened Arithmetic
  import opened Ext2Disk
  import opened Ext2Alloc
  import opened Ext2Tree
  import opened Ext2Map
  import opened Ext2File
  import opened Ext2DirBlock

  // ---------------------------------------------------------------- a directory

  function BlockEntries(geo: Geometry, m: Image, i: nat): seq<Entry>
    requires geo.Ok()
  {
    if Tiled(BlockBytes(geo, m, i), 0) then Entries(BlockBytes(geo, m, i), 0) else []
  }

  /** The entries of the first `n` blocks. */
  function DirEntries(geo: Geometry, m: Image, n: nat): seq<Entry>
    requires geo.Ok()
  {
    if n == 0 then [] else DirEntries(geo, m, n - 1) + BlockEntries(geo, m, n - 1)
  }

  /** A directory of `n` blocks: records tile each of them. */
  ghost predicate DirOk(geo: Geometry, m: Image, size: nat, blocks: int, n: nat) {
    && FileOk(geo, m, size, blocks)
    && size == Times(geo.blockSize, n) && n == BlocksForSize(geo.blockSize, size)
    && forall i {:trigger BlockBytes(geo, m, i)} :: 0 <= i < n ==> Tiled(BlockBytes(geo, m, i), 0)
  }

  lemma WholeBlocks(bs: nat, n: nat)
    requires bs > 0
    ensures BlocksForSize(bs, Times(bs, n)) == n
  {
    RestAt(n, bs - 1, bs);
  }

  // ---------------------------------------------------------------- names

  /** tolower */
  function Lower(b: byte): byte {
    if 65 <= b <= 90 then b + 32 else b
  }

  /** The test of ext2_FindDirectory: the same length, and Strnicmp over it. */
  predicate Matches(a: seq<byte>, b: seq<byte>) {
    |a| == |b| && forall i :: 0 <= i < |a| ==> Lower(a[i]) == Lower(b[i])
  }

  /** Each byte of one is that of the other, or the other case of the same letter. */
  lemma MatchesIs(a: seq<byte>, b: seq<byte>)
    ensures Matches(a, b) <==>
              && |a| == |b|
              && forall i :: 0 <= i < |a| ==>
                   || a[i] == b[i]
                   || (65 <= a[i] <= 90 && b[i] as int == a[i] as int + 32)
                   || (65 <= b[i] <= 90 && a[i] as int == b[i] as int + 32)
  {
    assert forall i {:trigger Lower(a[i])} {:trigger Lower(b[i])} :: 0 <= i < |a| && |a| == |b| ==>
      (Lower(a[i]) == Lower(b[i]) <==>
         || a[i] == b[i]
         || (65 <= a[i] <= 90 && b[i] as int == a[i] as int + 32)
         || (65 <= b[i] <= 90 && a[i] as int == b[i] as int + 32));
  }

  datatype Option<T> = None | Some(value: T)

  /** The inode of the first entry that matches. */
  function Lookup(entries: seq<Entry>, name: seq<byte>): Option<Word> {
    if entries == [] then None
    else if Matches(entries[0].name, name) then Some(entries[0].inode)
    else Lookup(entries[1..], name)
  }

  lemma {:induction false} LookupAppend(a: seq<Entry>, b: seq<Entry>, name: seq<byte>)
    ensures Lookup(a + b, name) == if Lookup(a, name) != None then Lookup(a, name) else Lookup(b, name)
  {
    if a == [] {
      assert a + b == b;
    } else {
      LookupAppend(a[1..], b, name);
      assert (a + b)[1..] == a[1..] + b;
    }
  }

  lemma LookupOneMore(before: seq<Entry>, e: Entry, after: seq<Entry>, name: seq<byte>)
    requires OneMore(before, e, after)
    ensures !Matches(e.name, name) ==> Lookup(after, name) == Lookup(before, name)
    ensures Lookup(before, name) == None && Matches(e.name, name) ==> Lookup(after, name) == Some(e.inode)
  {
    var k :| 0 <= k <= |before| && after == before[..k] + [e] + before[k..];
    assert before == before[..k] + before[k..];
    LookupAppend(before[..k], before[k..], name);
    LookupAppend(before[..k] + [e], before[k..], name);
    LookupAppend(before[..k], [e], name);
  }

  /** It finds the first of the entries that match. */
  lemma {:induction false} LookupFirst(entries: seq<Entry>, name: seq<byte>, i: nat)
    requires i < |entries| && Matches(entries[i].name, name)
    requires forall j :: 0 <= j < i ==> !Matches(entries[j].name, name)
    ensures Lookup(entries, name) == Some(entries[i].inode)
  {
    if i > 0 {
      LookupFirst(entries[1..], name, i - 1);
    }
  }

  /** Lookup finds nothing exactly when no entry matches. */
  lemma {:induction false} LookupNone(entries: seq<Entry>, name: seq<byte>)
    ensures Lookup(entries, name) == None <==> forall e :: e in entries ==> !Matches(e.name, name)
  {
    if entries != [] {
      LookupNone(entries[1..], name);
      assert entries == [entries[0]] + entries[1..];
    }
  }

  // ---------------------------------------------------------------- AddDirEntry

  lemma OneMoreAfter(a: seq<Entry>, before: seq<Entry>, e: Entry, after: seq<Entry>)
    requires OneMore(before, e, after)
    ensures OneMore(a + before, e, a + after)
  {
    var k :| 0 <= k <= |before| && after == before[..k] + [e] + before[k..];
    var all := a + before;
    assert all[..|a| + k] == a + before[..k] && all[|a| + k..] == before[k..];
    assert a + after == all[..|a| + k] + [e] + all[|a| + k..];
  }

  lemma OneMoreBefore(before: seq<Entry>, e: Entry, after: seq<Entry>, z: seq<Entry>)
    requires OneMore(before, e, after)
    ensures OneMore(before + z, e, after + z)
  {
    var k :| 0 <= k <= |before| && after == before[..k] + [e] + before[k..];
    var all := before + z;
    assert all[..k] == before[..k] && all[k..] == before[k..] + z;
    assert after + z == all[..k] + [e] + all[k..];
  }

  /** One more entry in one block is one more in the directory. */
  lemma {:induction false} DirOneMore(geo: Geometry, m: Image, m': Image, n: nat, bi: nat, e: Entry)
    requires geo.Ok() && bi < n
    requires forall i {:trigger BlockEntries(geo, m', i)} :: 0 <= i < n && i != bi ==>
               BlockEntries(geo, m', i) == BlockEntries(geo, m, i)
    requires OneMore(BlockEntries(geo, m, bi), e, BlockEntries(geo, m', bi))
    ensures OneMore(DirEntries(geo, m, n), e, DirEntries(geo, m', n))
  {
    hide OneMore, BlockEntries;
    assert DirEntries(geo, m, n) == DirEntries(geo, m, n - 1) + BlockEntries(geo, m, n - 1);
    assert DirEntries(geo, m', n) == DirEntries(geo, m', n - 1) + BlockEntries(geo, m', n - 1);
    if bi == n - 1 {
      DirSame(geo, m, m', n - 1);
      OneMoreAfter(DirEntries(geo, m, n - 1), BlockEntries(geo, m, bi), e, BlockEntries(geo, m', bi));
    } else {
      DirOneMore(geo, m, m', n - 1, bi, e);
      OneMoreBefore(DirEntries(geo, m, n - 1), e, DirEntries(geo, m', n - 1), BlockEntries(geo, m, n - 1));
      assert BlockEntries(geo, m', n - 1) == BlockEntries(geo, m, n - 1);
    }
  }

  lemma {:induction false} DirSame(geo: Geometry, m: Image, m': Image, n: nat)
    requires geo.Ok()
    requires forall i {:trigger BlockEntries(geo, m', i)} :: 0 <= i < n ==>
               BlockEntries(geo, m', i) == BlockEntries(geo, m, i)
    ensures DirEntries(geo, m', n) == DirEntries(geo, m, n)
  {
    if n > 0 {
      DirSame(geo, m, m', n - 1);
      assert BlockEntries(geo, m', n - 1) == BlockEntries(geo, m, n - 1);
    }
  }

  /** Writing a whole block of the directory. */
  method PutDirBlock(v: Volume, inode: Inode, block: Word, ghost bi: nat, content: seq<byte>)
    requires ImageOk(v.geo, Img(v, inode)) && bi < WriterLimit(v.geo.Pointers()) && |content| == v.geo.blockSize
    requires block == BlockOf(v.geo, Img(v, inode), bi) != 0
    modifies v`disk
    ensures OtherFilesKept(v.geo, old(Img(v, inode)), Img(v, inode))
    ensures Patched(v.geo, old(Img(v, inode)), bi, 0, content, Img(v, inode))
    ensures BlockBytes(v.geo, Img(v, inode), bi) == content
    ensures forall i: nat {:trigger BlockOf(v.geo, Img(v, inode), i)} :: i < WriterLimit(v.geo.Pointers()) ==>
              BlockOf(v.geo, Img(v, inode), i) == BlockOf(v.geo, old(Img(v, inode)), i)
  {
    ghost var m := Img(v, inode);
    BlockIsWhole(v.geo, m, bi);
    assert Patch(BlockBytes(v.geo, m, bi), 0, content) == content;
    ChunkPatched(v.geo, m, m, bi, 0, content, Bytes(content));
    DataWritten(v.geo, m, bi, Bytes(content));
    DataKeepsOthers(v.geo, m, bi, Bytes(content));
    v.disk := v.disk[block := Bytes(content)];
    forall i: nat {:trigger BlockOf(v.geo, Img(v, inode), i)} | i < WriterLimit(v.geo.Pointers())
      ensures BlockOf(v.geo, Img(v, inode), i) == BlockOf(v.geo, m, i)
    {
      RouteIsPlace(v.geo.Pointers(), i);
    }
  }

  lemma {:induction false} CountSame(geo: Geometry, m: Image, m': Image, n: nat)
    requires geo.Ok() && n <= WriterLimit(geo.Pointers())
    requires forall i: nat {:trigger BlockOf(geo, m', i)} :: i < WriterLimit(geo.Pointers()) ==>
               BlockOf(geo, m', i) == BlockOf(geo, m, i)
    ensures CountBlocks(geo, m', n) == CountBlocks(geo, m, n)
  {
    if n > 0 {
      CountSame(geo, m, m', n - 1);
      assert BlockOf(geo, m', n - 1) == BlockOf(geo, m, n - 1);
    }
  }

  /** The new entry is in block `at`, a new one or one of `n`, and nothing else changed. */
  ghost predicate InsertedAt(geo: Geometry, m: Image, n: nat, e: Entry, m': Image, at: nat)
    requires geo.Ok()
  {
    && at <= n
    && (forall i {:trigger BlockEntries(geo, m', i)} :: 0 <= i < n && i != at ==>
          BlockEntries(geo, m', i) == BlockEntries(geo, m, i))
    && (if at < n then OneMore(BlockEntries(geo, m, at), e, BlockEntries(geo, m', at))
        else BlockEntries(geo, m', n) == [e])
  }

  /** How many blocks there are then. */
  function After(n: nat, at: nat): nat {
    if at < n then n else n + 1
  }

  lemma OneMoreAtEnd(before: seq<Entry>, e: Entry)
    ensures OneMore(before, e, before + [e])
  {
    assert before + [e] == before[..|before|] + [e] + before[|before|..];
  }

  /** Then the directory has exactly this entry more. */
  lemma InsertedIsOneMore(geo: Geometry, m: Image, n: nat, e: Entry, m': Image, at: nat)
    requires geo.Ok() && InsertedAt(geo, m, n, e, m', at)
    ensures OneMore(DirEntries(geo, m, n), e, DirEntries(geo, m', After(n, at)))
  {
    hide OneMore, BlockEntries;
    if at < n {
      DirOneMore(geo, m, m', n, at, e);
    } else {
      DirSame(geo, m, m', n);
      OneMoreAtEnd(DirEntries(geo, m, n), e);
    }
  }

  /** A directory in which one block got one more entry. */
  lemma DirWithInsert(geo: Geometry, m: Image, size: nat, blocks: int, n: nat, bi: nat, e: Entry, content: seq<byte>,
                      m': Image)
    requires DirOk(geo, m, size, blocks, n) && bi < n && Patched(geo, m, bi, 0, content, m')
    requires BlockBytes(geo, m', bi) == content && Tiled(content, 0)
    requires OneMore(BlockEntries(geo, m, bi), e, Entries(content, 0))
    requires forall i: nat {:trigger BlockOf(geo, m', i)} :: i < WriterLimit(geo.Pointers()) ==>
               BlockOf(geo, m', i) == BlockOf(geo, m, i)
    ensures DirOk(geo, m', size, blocks, n) && InsertedAt(geo, m, n, e, m', bi)
  {
    ReaderWithinWriter(geo.Pointers());
    CountSame(geo, m, m', ReaderLimit(geo.Pointers()));
    forall i | 0 <= i < n
      ensures BlockOf(geo, m', i) != 0 && (i != bi ==> BlockBytes(geo, m', i) == BlockBytes(geo, m, i))
    {
      assert BlockOf(geo, m, i) != 0 && BlockOf(geo, m', i) == BlockOf(geo, m, i);
    }
    forall i {:trigger BlockBytes(geo, m', i)} | 0 <= i < n
      ensures Tiled(BlockBytes(geo, m', i), 0)
    {
      assert Tiled(BlockBytes(geo, m, i), 0);
    }
  }

  /** A directory with a new block for the new entry. */
  lemma DirWithBlock(geo: Geometry, m: Image, size: nat, blocks: int, n: nat, e: Entry, m': Image, blocks': int)
    requires DirOk(geo, m, size, blocks, n) && n < ReaderLimit(geo.Pointers())
    requires ImageOk(geo, m') && BlockOf(geo, m', n) != 0
    requires forall i: nat {:trigger BlockOf(geo, m', i)} :: i < n ==>
               BlockOf(geo, m', i) != 0 && BlockBytes(geo, m', i) == BlockBytes(geo, m, i)
    requires Tiled(BlockBytes(geo, m', n), 0) && Entries(BlockBytes(geo, m', n), 0) == [e]
    requires CountBlocks(geo, m', ReaderLimit(geo.Pointers())) <= blocks'
    ensures DirOk(geo, m', size + geo.blockSize, blocks', n + 1)
    ensures InsertedAt(geo, m, n, e, m', n)
  {
    WholeBlocks(geo.blockSize, n + 1);
    assert size + geo.blockSize == Times(geo.blockSize, n + 1);
    assert BlocksForSize(geo.blockSize, size + geo.blockSize) == n + 1;
    forall i | 0 <= i < n
      ensures BlockOf(geo, m', i) != 0 && BlockBytes(geo, m', i) == BlockBytes(geo, m, i)
    {
      assert BlockOf(geo, m', i) != 0;
    }
    forall i {:trigger BlockBytes(geo, m', i)} | 0 <= i < n + 1
      ensures Tiled(BlockBytes(geo, m', i), 0)
    {
      assert i < n ==> Tiled(BlockBytes(geo, m, i), 0);
    }
    assert Mapped(geo, m', n + 1);
    assert FileOk(geo, m', size + geo.blockSize, blocks');
  }

  /** No record of the first `n` blocks has room for `need` bytes. */
  predicate NoRoom(geo: Geometry, m: Image, n: nat, need: nat)
    requires geo.Ok()
  {
    n == 0
      || (NoRoom(geo, m, n - 1, need)
          && (Tiled(BlockBytes(geo, m, n - 1), 0) ==> FirstRoom(BlockBytes(geo, m, n - 1), 0, need) == -1))
  }

  /** The block that AddDirEntry takes: the first one with room, or else a new one. */
  predicate FirstWithRoom(geo: Geometry, m: Image, n: nat, need: nat, at: nat)
    requires geo.Ok()
  {
    at <= n && NoRoom(geo, m, at, need) && (at < n ==> !NoRoom(geo, m, at + 1, need))
  }

  lemma {:induction false} NoRoomBefore(geo: Geometry, m: Image, i: nat, n: nat, need: nat)
    requires geo.Ok() && i <= n && NoRoom(geo, m, n, need)
    ensures NoRoom(geo, m, i, need)
    decreases n
  {
    if i < n {
      NoRoomBefore(geo, m, i, n - 1, need);
    }
  }

  lemma {:induction false} RoomFound(geo: Geometry, m: Image, n: nat, need: nat, bi: nat)
    requires geo.Ok() && bi < n && Tiled(BlockBytes(geo, m, bi), 0) && FirstRoom(BlockBytes(geo, m, bi), 0, need) != -1
    ensures !NoRoom(geo, m, n, need)
  {
    if bi < n - 1 {
      RoomFound(geo, m, n - 1, need, bi);
    }
  }

  /** A block of the directory and its number. */
  method DirBlock(v: Volume, inode: Inode, bi: nat, ghost m: Image, ghost n: nat) returns (block: Word, data: seq<byte>)
    requires v.geo.Ok() && m == Img(v, inode) && DirOk(v.geo, m, inode.size, inode.blocks, n) && bi < n
    ensures block == BlockOf(v.geo, m, bi) && data == BlockBytes(v.geo, m, bi) && |data| == v.geo.blockSize
    ensures Tiled(data, 0)
  {
    LimitFits(v.geo);
    BlockReadable(v.geo, m, inode.size, inode.blocks, bi);
    block := GetBlockNumber(v, inode, bi);
    DataIsStable(v.geo, m, bi);
    data := BytesOf(v.disk[block]);
  }

  /** The outer loop of AddDirEntry: the first block with room, and the record there. */
  method FindRoomInDir(v: Volume, inode: Inode, need: nat, n: nat, ghost m: Image)
    returns (bi: nat, o: int, block: Word, data: seq<byte>)
    requires v.geo.Ok() && m == Img(v, inode) && DirOk(v.geo, m, inode.size, inode.blocks, n)
    ensures o != -1 ==>
              bi < n && block == BlockOf(v.geo, m, bi) && data == BlockBytes(v.geo, m, bi) && |data| == v.geo.blockSize
    ensures o != -1 ==> Tiled(data, 0) && o == FirstRoom(data, 0, need)
    ensures o != -1 ==> NoRoom(v.geo, m, bi, need) && !NoRoom(v.geo, m, bi + 1, need)
    ensures o == -1 ==> NoRoom(v.geo, m, n, need)
  {
    bi := 0;
    while bi < n
      invariant 0 <= bi <= n && NoRoom(v.geo, m, bi, need)
    {
      block, data, o := RoomInBlock(v, inode, need, bi, n, m);
      if o != -1 {
        return;
      }
      bi := bi + 1;
    }
    return bi, -1, 0, [];
  }

  /** The inner loop on one block. */
  method RoomInBlock(v: Volume, inode: Inode, need: nat, bi: nat, ghost n: nat, ghost m: Image)
    returns (block: Word, data: seq<byte>, o: int)
    requires v.geo.Ok() && m == Img(v, inode) && DirOk(v.geo, m, inode.size, inode.blocks, n) && bi < n
    ensures o != -1 ==> block == BlockOf(v.geo, m, bi) && data == BlockBytes(v.geo, m, bi) && |data| == v.geo.blockSize
    ensures o != -1 ==> Tiled(data, 0) && o == FirstRoom(data, 0, need) && !NoRoom(v.geo, m, bi + 1, need)
    ensures o == -1 && NoRoom(v.geo, m, bi, need) ==> NoRoom(v.geo, m, bi + 1, need)
  {
    block, data := DirBlock(v, inode, bi, m, n);
    o := FindRoom(data, need);
    if o != -1 {
      RoomFound(v.geo, m, bi + 1, need, bi);
    }
  }

  /** AddDirEntry. Exactly the new entry is added, behind the first record with room or in a
      block of its own, and all others are kept in order. */
  method AddDirEntry(v: Volume, group: nat, inode: Inode, e: Entry, isDir: bool, ghost n: nat)
    returns (ghost at: nat)
    requires v.geo.Ok() && DirOk(v.geo, Img(v, inode), inode.size, inode.blocks, n) && |e.name| < 256
    requires group < |v.groups|
    requires NoRoom(v.geo, Img(v, inode), n, EntrySize(|e.name|)) ==>
               n < ReaderLimit(v.geo.Pointers()) && Missing(Img(v, inode), Route(v.geo.Pointers(), n)) <= v.freeBlocks
    modifies v`groups, v`freeBlocks, v`disk, v`fileErr, inode`blocks, inode`block, inode`size, inode`links
    ensures DirOk(v.geo, Img(v, inode), inode.size, inode.blocks, After(n, at))
    ensures InsertedAt(v.geo, old(Img(v, inode)), n, e, Img(v, inode), at)
    ensures FirstWithRoom(v.geo, old(Img(v, inode)), n, EntrySize(|e.name|), at)
    ensures OneMore(DirEntries(v.geo, old(Img(v, inode)), n), e, DirEntries(v.geo, Img(v, inode), After(n, at)))
    ensures OtherFilesKept(v.geo, old(Img(v, inode)), Img(v, inode))
    ensures inode.links == if isDir then (old(inode.links) + 1) % 0x1_0000 else old(inode.links)
    ensures v.fileErr == old(v.fileErr)
  {
    hide OneMore, BlockEntries, InsertedAt, FirstWithRoom, DirOk, DirEntries, NoRoom, OtherFilesKept, After;
    at := InsertOrExtend(v, group, inode, e, n);
    InsertedIsOneMore(v.geo, old(Img(v, inode)), n, e, Img(v, inode), at);
    if isDir {
      inode.links := (inode.links + 1) % 0x1_0000;
    }
  }

  /** AddDirEntry up to the count of links. */
  method InsertOrExtend(v: Volume, group: nat, inode: Inode, e: Entry, ghost n: nat)
    returns (ghost at: nat)
    requires v.geo.Ok() && DirOk(v.geo, Img(v, inode), inode.size, inode.blocks, n) && |e.name| < 256
    requires group < |v.groups|
    requires NoRoom(v.geo, Img(v, inode), n, EntrySize(|e.name|)) ==>
               n < ReaderLimit(v.geo.Pointers()) && Missing(Img(v, inode), Route(v.geo.Pointers(), n)) <= v.freeBlocks
    modifies v`groups, v`freeBlocks, v`disk, v`fileErr, inode`blocks, inode`block, inode`size
    ensures DirOk(v.geo, Img(v, inode), inode.size, inode.blocks, After(n, at))
    ensures InsertedAt(v.geo, old(Img(v, inode)), n, e, Img(v, inode), at)
    ensures FirstWithRoom(v.geo, old(Img(v, inode)), n, EntrySize(|e.name|), at)
    ensures OtherFilesKept(v.geo, old(Img(v, inode)), Img(v, inode))
    ensures v.fileErr == old(v.fileErr)
  {
    hide OneMore, BlockEntries, InsertedAt, DirEntries, OtherFilesKept;
    ghost var m := Img(v, inode);
    var inodeBlocks := BlocksForSize(v.geo.blockSize, inode.size);
    var bi, o, block, data := FindRoomInDir(v, inode, EntrySize(|e.name|), inodeBlocks, m);
    if o != -1 {
      InsertInDir(v, inode, block, data, o, e, bi, inodeBlocks);
      return bi;
    }
    AddDirBlock(v, group, inode, e, inodeBlocks);
    return inodeBlocks;
  }

  /** AddDirEntry when a record with room is found. */
  method InsertInDir(v: Volume, inode: Inode, block: Word, data: seq<byte>, o: nat, e: Entry, ghost bi: nat,
                     ghost n: nat)
    requires v.geo.Ok() && DirOk(v.geo, Img(v, inode), inode.size, inode.blocks, n) && |e.name| < 256 && bi < n
    requires block == BlockOf(v.geo, Img(v, inode), bi) && data == BlockBytes(v.geo, Img(v, inode), bi)
    requires |data| == v.geo.blockSize
    requires Tiled(data, 0) && o == FirstRoom(data, 0, EntrySize(|e.name|))
    modifies v`disk
    ensures OtherFilesKept(v.geo, old(Img(v, inode)), Img(v, inode))
    ensures DirOk(v.geo, Img(v, inode), inode.size, inode.blocks, n)
    ensures InsertedAt(v.geo, old(Img(v, inode)), n, e, Img(v, inode), bi)
  {
    ghost var m := Img(v, inode);
    ReaderWithinWriter(v.geo.Pointers());
    InsertInBlock(v.geo, data, o, e);
    BlockReadable(v.geo, m, inode.size, inode.blocks, bi);
    PutDirBlock(v, inode, block, bi, Insert(data, o, e));
    DirWithInsert(v.geo, m, inode.size, inode.blocks, n, bi, e, Insert(data, o, e), Img(v, inode));
  }

  lemma InsertInBlock(geo: Geometry, b: seq<byte>, o: nat, e: Entry)
    requires geo.Ok() && |b| == geo.blockSize && |e.name| < 256 && Tiled(b, 0)
    requires o == FirstRoom(b, 0, EntrySize(|e.name|))
    ensures HasRoom(b, o, EntrySize(|e.name|)) && Tiled(Insert(b, o, e), 0)
    ensures OneMore(Entries(b, 0), e, Entries(Insert(b, o, e), 0))
  {
    FirstRoomIsReached(b, 0, EntrySize(|e.name|));
    InsertSplits(b, o, e);
    SplitOnTheWay(b, 0, o, e, Insert(b, o, e));
  }

  /** The end of AddDirEntry when no block has room. */
  method AddDirBlock(v: Volume, group: nat, inode: Inode, e: Entry, n: nat)
    requires v.geo.Ok() && DirOk(v.geo, Img(v, inode), inode.size, inode.blocks, n) && |e.name| < 256
    requires group < |v.groups|
    requires n < ReaderLimit(v.geo.Pointers()) && Missing(Img(v, inode), Route(v.geo.Pointers(), n)) <= v.freeBlocks
    modifies v`groups, v`freeBlocks, v`disk, v`fileErr, inode`blocks, inode`block, inode`size
    ensures DirOk(v.geo, Img(v, inode), inode.size, inode.blocks, n + 1)
    ensures InsertedAt(v.geo, old(Img(v, inode)), n, e, Img(v, inode), n)
    ensures OtherFilesKept(v.geo, old(Img(v, inode)), Img(v, inode))
    ensures v.fileErr == old(v.fileErr)
  {
    ghost var m, size, blocks := Img(v, inode), inode.size, inode.blocks;
    LimitFits(v.geo);
    WriteChunk(v, group, inode, n, n, 0, RecordBytes(e, v.geo.blockSize));
    inode.size := inode.size + v.geo.blockSize;
    ghost var m' := Img(v, inode);
    NewBlockTiled(v.geo, m, n, e, m');
    CountAfterPatch(v.geo, m, n, m', ReaderLimit(v.geo.Pointers()));
    NewBlockCounts(v.geo, m, Route(v.geo.Pointers(), n));
    DirWithBlock(v.geo, m, size, blocks, n, e, m', inode.blocks);
  }

  lemma NewBlockTiled(geo: Geometry, m: Image, n: nat, e: Entry, m': Image)
    requires geo.Ok() && |e.name| < 256 && Patched(geo, m, n, 0, RecordBytes(e, geo.blockSize), m')
    ensures Tiled(BlockBytes(geo, m', n), 0) && Entries(BlockBytes(geo, m', n), 0) == [e]
  {
    var b, r := BlockBytes(geo, m', n), RecordBytes(e, geo.blockSize);
    assert b[0..|r|] == r;
    RecordReadsBack(b, 0, e, geo.blockSize);
    assert Tiled(b, |b|) && Entries(b, |b|) == [];
  }

  // ---------------------------------------------------------------- ext2_FindDirectory

  const DOT: byte := 46

  /** The comparison in the loop. */
  method SameEntry(b: seq<byte>, o: nat, name: seq<byte>) returns (same: bool)
    requires RecordAt(b, o)
    ensures same <==> Matches(EntryAt(b, o).name, name)
  {
    if |name| != NameLen(b, o) {
      return false;
    }
    var i := 0;
    while i < |name|
      invariant 0 <= i <= |name|
      invariant forall j :: 0 <= j < i ==> Lower(EntryAt(b, o).name[j]) == Lower(name[j])
    {
      if Lower(b[o + HEADER + i]) != Lower(name[i]) {
        assert EntryAt(b, o).name[i] == b[o + HEADER + i];
        return false;
      }
      i := i + 1;
    }
    return true;
  }

  /** The block that a block number of 8 bits stands for. */
  function Shown(bi: nat): (i: nat)
    ensures i <= bi && i < 256 && (bi < 256 ==> i == bi)
  {
    bi % 256
  }

  /** Where the scan is: in the record at offset `o` of the block that it takes for number `bi`.
      Its block numbers have 8 bits, so from the 257th block on it sees the first ones again. */
  ghost predicate ScanAt(geo: Geometry, m: Image, n: nat, name: seq<byte>, seen: seq<Entry>, bi: nat, o: nat,
                         total: nat, block: seq<byte>)
    requires geo.Ok()
  {
    && bi < n && block == BlockBytes(geo, m, Shown(bi)) && |block| == geo.blockSize
    && o <= geo.blockSize && Tiled(block, o) && total == Times(geo.blockSize, bi) + o
    && (bi < 256 ==> seen + Entries(block, o) == DirEntries(geo, m, bi + 1) && Lookup(seen, name) == None)
    && (bi >= 256 ==> Lookup(DirEntries(geo, m, 256), name) == None
                      && forall e :: e in Entries(block, o) ==> e in DirEntries(geo, m, 256))
  }

  /** What the scan looks at. */
  function InView(n: nat): nat {
    if n < 256 then n else 256
  }

  lemma {:induction false} BlockInDir(geo: Geometry, m: Image, i: nat, n: nat, e: Entry)
    requires geo.Ok() && i < n && e in BlockEntries(geo, m, i)
    ensures e in DirEntries(geo, m, n)
  {
    hide BlockEntries;
    assert DirEntries(geo, m, n) == DirEntries(geo, m, n - 1) + BlockEntries(geo, m, n - 1);
    if i < n - 1 {
      BlockInDir(geo, m, i, n - 1, e);
    }
  }

  lemma ScanStarts(geo: Geometry, m: Image, n: nat, name: seq<byte>, bi: nat, block: seq<byte>)
    requires geo.Ok() && bi < n && block == BlockBytes(geo, m, Shown(bi)) && |block| == geo.blockSize && Tiled(block, 0)
    requires Lookup(DirEntries(geo, m, InView(bi)), name) == None
    ensures ScanAt(geo, m, n, name, DirEntries(geo, m, bi), bi, 0, Times(geo.blockSize, bi), block)
  {
    hide BlockBytes, Times, Lookup, Shown;
    if bi >= 256 {
      forall e | e in Entries(block, 0)
        ensures e in DirEntries(geo, m, 256)
      {
        BlockInDir(geo, m, Shown(bi), 256, e);
      }
    }
  }

  lemma SeenMore(seen: seq<Entry>, e: Entry, rest: seq<Entry>, name: seq<byte>)
    requires Lookup(seen, name) == None && !Matches(e.name, name)
    ensures Lookup(seen + [e], name) == None && seen + ([e] + rest) == seen + [e] + rest
  {
    hide Matches;
    LookupAppend(seen, [e], name);
    assert [e][1..] == [];
  }

  lemma RestInside(e: Entry, rest: seq<Entry>, all: seq<Entry>)
    requires forall x :: x in [e] + rest ==> x in all
    ensures e in all && forall x :: x in rest ==> x in all
  {
    assert ([e] + rest)[0] == e;
  }

  lemma ScanMoves(geo: Geometry, m: Image, n: nat, name: seq<byte>, seen: seq<Entry>, bi: nat, o: nat, total: nat,
                  block: seq<byte>)
    requires geo.Ok() && ScanAt(geo, m, n, name, seen, bi, o, total, block) && o < geo.blockSize
    requires !Matches(EntryAt(block, o).name, name)
    ensures ScanAt(geo, m, n, name, seen + [EntryAt(block, o)], bi, o + RecLen(block, o), total + RecLen(block, o),
                   block)
  {
    RecordStep(block, o);
    hide BlockBytes, Times, Shown, Matches, DirEntries, Entries, Tiled, RecordAt, RecLen, EntryAt, Lookup;
    var e, rest := EntryAt(block, o), Entries(block, o + RecLen(block, o));
    if bi < 256 {
      SeenMore(seen, e, rest, name);
    } else {
      RestInside(e, rest, DirEntries(geo, m, 256));
    }
  }

  lemma {:induction false} DirPrefix(geo: Geometry, m: Image, i: nat, n: nat)
    requires geo.Ok() && i <= n
    ensures DirEntries(geo, m, i) <= DirEntries(geo, m, n)
  {
    hide BlockEntries;
    if i < n {
      DirPrefix(geo, m, i, n - 1);
    }
  }

  lemma ScanHits(geo: Geometry, m: Image, n: nat, name: seq<byte>, seen: seq<Entry>, bi: nat, o: nat, total: nat,
                 block: seq<byte>)
    requires geo.Ok() && ScanAt(geo, m, n, name, seen, bi, o, total, block) && o < geo.blockSize
    requires Matches(EntryAt(block, o).name, name)
    ensures Lookup(DirEntries(geo, m, InView(n)), name) == Some(EntryAt(block, o).inode)
  {
    RecordStep(block, o);
    hide BlockBytes, Times, Shown, Matches, DirEntries, Entries, Tiled, RecordAt, RecLen, EntryAt, Lookup;
    var e, rest := EntryAt(block, o), Entries(block, o + RecLen(block, o));
    if bi < 256 {
      SeenFirst(seen, e, rest, name);
      LookupPrefix(geo, m, bi + 1, InView(n), name);
    } else {
      RestInside(e, rest, DirEntries(geo, m, 256));
      NotInside(DirEntries(geo, m, 256), e, name);
    }
  }

  lemma NotInside(all: seq<Entry>, e: Entry, name: seq<byte>)
    requires Lookup(all, name) == None && e in all
    ensures !Matches(e.name, name)
  {
    LookupNone(all, name);
  }

  lemma SeenFirst(seen: seq<Entry>, e: Entry, rest: seq<Entry>, name: seq<byte>)
    requires Lookup(seen, name) == None && Matches(e.name, name)
    ensures Lookup(seen + ([e] + rest), name) == Some(e.inode)
  {
    hide Matches;
    LookupAppend(seen, [e] + rest, name);
  }

  lemma LookupPrefix(geo: Geometry, m: Image, i: nat, n: nat, name: seq<byte>)
    requires geo.Ok() && i <= n && Lookup(DirEntries(geo, m, i), name) != None
    ensures Lookup(DirEntries(geo, m, n), name) == Lookup(DirEntries(geo, m, i), name)
  {
    DirPrefix(geo, m, i, n);
    var first, all := DirEntries(geo, m, i), DirEntries(geo, m, n);
    LookupAppend(first, all[|first|..], name);
    assert all == first + all[|first|..];
  }

  lemma ScanEnds(geo: Geometry, m: Image, n: nat, name: seq<byte>, seen: seq<Entry>, bi: nat, o: nat, total: nat,
                 block: seq<byte>)
    requires geo.Ok() && ScanAt(geo, m, n, name, seen, bi, o, total, block) && total >= Times(geo.blockSize, n)
    ensures o == geo.blockSize && Lookup(DirEntries(geo, m, InView(n)), name) == None
  {
    hide BlockBytes, Shown, DirEntries;
    TimesMonotone(geo.blockSize, bi + 1, n);
    if bi + 1 < n {
      TimesMonotone(geo.blockSize, bi + 2, n);
    }
    assert Entries(block, o) == [] && seen + [] == seen;
  }

  /** The loop of ext2_FindDirectory over the records of all blocks. */
  method Scan(v: Volume, inode: Inode, name: seq<byte>, ghost n: nat) returns (found: Option<Word>)
    requires v.geo.Ok() && DirOk(v.geo, Img(v, inode), inode.size, inode.blocks, n) && n > 0
    ensures found == Lookup(DirEntries(v.geo, Img(v, inode), InView(n)), name)
  {
    ghost var m := Img(v, inode);
    assert DirEntries(v.geo, m, InView(0)) == [] && Lookup([], name) == None && Times(v.geo.blockSize, 0) == 0;
    hide ScanAt, Lookup, DirEntries, BlockBytes, Shown, Matches, DirOk;
    hide RecordAt, RecLen, EntryAt, Times, Tiled, Entries;
    var blockNr: nat, dirOffset: nat, totalOffset: nat := 0, 0, 0;
    var block := ReadDirBlock(v, inode, 0, m, n);
    ghost var seen, bi := [], 0;
    ScanStarts(v.geo, m, n, name, 0, block);
    while totalOffset < inode.size
      invariant ScanAt(v.geo, m, n, name, seen, bi, dirOffset, totalOffset, block) && blockNr == Shown(bi)
      decreases inode.size - totalOffset
    {
      blockNr, dirOffset, block, seen, bi := NextBlock(v, inode, name, blockNr, dirOffset, totalOffset, block, m, seen,
                                                       bi, n);
      ScanInside(v.geo, m, n, name, seen, bi, dirOffset, totalOffset, block);
      var same := SameEntry(block, dirOffset, name);
      if same {
        ScanHits(v.geo, m, n, name, seen, bi, dirOffset, totalOffset, block);
        return Some(U32(block, dirOffset));
      }
      ScanMoves(v.geo, m, n, name, seen, bi, dirOffset, totalOffset, block);
      seen := seen + [EntryAt(block, dirOffset)];
      dirOffset, totalOffset := dirOffset + RecLen(block, dirOffset), totalOffset + RecLen(block, dirOffset);
    }
    ScanEnds(v.geo, m, n, name, seen, bi, dirOffset, totalOffset, block);
    return None;
  }

  /** Counting in 8 bits. */
  lemma NextNumber(bi: nat)
    ensures Shown(Shown(bi) + 1) == Shown(bi + 1)
  {
  }

  /** The start of the loop body: at the end of a block the next one is read. */
  method NextBlock(v: Volume, inode: Inode, name: seq<byte>, blockNr: nat, dirOffset: nat, totalOffset: nat,
                   block: seq<byte>,
                   ghost m: Image, ghost seen: seq<Entry>, ghost bi: nat, ghost n: nat)
    returns (blockNr': nat, dirOffset': nat, block': seq<byte>, ghost seen': seq<Entry>, ghost bi': nat)
    requires v.geo.Ok() && m == Img(v, inode) && DirOk(v.geo, m, inode.size, inode.blocks, n)
    requires totalOffset < inode.size
    requires ScanAt(v.geo, m, n, name, seen, bi, dirOffset, totalOffset, block) && blockNr == Shown(bi)
    ensures ScanAt(v.geo, m, n, name, seen', bi', dirOffset', totalOffset, block') && blockNr' == Shown(bi')
    ensures dirOffset' < v.geo.blockSize
  {
    assert inode.size == Times(v.geo.blockSize, n);
    hide ScanAt, DirOk, Lookup, DirEntries, BlockBytes, Times, Shown, Tiled, Entries;
    if dirOffset < v.geo.blockSize {
      return blockNr, dirOffset, block, seen, bi;
    }
    ScanNextBlock(v.geo, m, n, name, seen, bi, dirOffset, totalOffset, block);
    NextNumber(bi);
    bi' := bi + 1;
    blockNr', dirOffset' := Shown(blockNr + 1), dirOffset - v.geo.blockSize;
    block' := ReadDirBlock(v, inode, blockNr', m, n);
    seen' := DirEntries(v.geo, m, bi');
    ScanStarts(v.geo, m, n, name, bi', block');
  }

  lemma ScanInside(geo: Geometry, m: Image, n: nat, name: seq<byte>, seen: seq<Entry>, bi: nat, o: nat, total: nat,
                   block: seq<byte>)
    requires geo.Ok() && ScanAt(geo, m, n, name, seen, bi, o, total, block) && o < geo.blockSize
    ensures RecordAt(block, o) && RecLen(block, o) > 0
  {
    RecordStep(block, o);
  }

  lemma ScanNextBlock(geo: Geometry, m: Image, n: nat, name: seq<byte>, seen: seq<Entry>, bi: nat, o: nat, total: nat,
                      block: seq<byte>)
    requires geo.Ok() && ScanAt(geo, m, n, name, seen, bi, o, total, block) && o >= geo.blockSize
    requires total < Times(geo.blockSize, n)
    ensures o == geo.blockSize && bi + 1 < n && total == Times(geo.blockSize, bi + 1)
    ensures Lookup(DirEntries(geo, m, InView(bi + 1)), name) == None
  {
    hide BlockBytes, Shown, DirEntries;
    assert bi + 1 >= n ==> n == bi + 1;
    assert Entries(block, o) == [] && seen + [] == seen;
  }

  method ReadDirBlock(v: Volume, inode: Inode, bi: nat, ghost m: Image, ghost n: nat) returns (block: seq<byte>)
    requires v.geo.Ok() && m == Img(v, inode) && DirOk(v.geo, m, inode.size, inode.blocks, n) && bi < n
    ensures block == BlockBytes(v.geo, m, bi) && |block| == v.geo.blockSize && Tiled(block, 0)
  {
    LimitFits(v.geo);
    BlockReadable(v.geo, m, inode.size, inode.blocks, bi);
    var found;
    found, block := GetBlockINode(v, inode, bi);
  }

  /** ext2_FindDirectory up to the inode number: the lookup sees the first 256 blocks. The names
      that start with two dots are not looked up in the root. */
  method FindDirectory(v: Volume, inode: Inode, isRoot: bool, isDir: bool, name: seq<byte>, ghost n: nat)
    returns (found: Option<Word>)
    requires v.geo.Ok() && DirOk(v.geo, Img(v, inode), inode.size, inode.blocks, n)
    ensures found == if isDir && !(isRoot && |name| >= 2 && name[0] == name[1] == DOT)
                     then Lookup(DirEntries(v.geo, Img(v, inode), InView(n)), name) else None
  {
    if isRoot && |name| >= 2 && name[0] == DOT && name[1] == DOT {
      return None;
    }
    if !isDir {
      return None;
    }
    if inode.size == 0 {
      NothingInside(v.geo, n);
      return None;
    }
    found := Scan(v, inode, name, n);
  }

  lemma NothingInside(geo: Geometry, n: nat)
    requires geo.Ok() && Times(geo.blockSize, n) == 0
    ensures n == 0
  {
  }

  /** No two entries have the same name. */
  ghost predicate AllDiffer(entries: seq<Entry>) {
    forall i, j :: 0 <= i < j < |entries| ==> !Matches(entries[i].name, entries[j].name)
  }

  /** The records tile every block. */
  ghost predicate AllTiled(geo: Geometry, m: Image, n: nat)
    requires geo.Ok()
  {
    forall i {:trigger BlockBytes(geo, m, i)} :: 0 <= i < n ==>
      BlockBytes(geo, m, i) != [] && Tiled(BlockBytes(geo, m, i), 0)
  }

  lemma DirIsTiled(geo: Geometry, m: Image, size: nat, blocks: int, n: nat)
    requires geo.Ok() && DirOk(geo, m, size, blocks, n)
    ensures AllTiled(geo, m, n)
  {
    forall i {:trigger BlockBytes(geo, m, i)} | 0 <= i < n
      ensures BlockBytes(geo, m, i) != []
    {
      BlockReadable(geo, m, size, blocks, i);
    }
  }

  /** In a directory in which all names differ, every lookup answers for the whole directory exactly
      when it has 256 blocks at most; otherwise the first name of the next block is not found. */
  lemma FindsAllIff(geo: Geometry, m: Image, size: nat, blocks: int, n: nat)
    requires geo.Ok() && DirOk(geo, m, size, blocks, n) && AllDiffer(DirEntries(geo, m, n))
    ensures var first, all := DirEntries(geo, m, InView(n)), DirEntries(geo, m, n);
            && ((forall name :: Lookup(first, name) == Lookup(all, name)) <==> n <= 256)
            && (n > 256 ==>
                  && RecordAt(BlockBytes(geo, m, 256), 0)
                  && var e := EntryAt(BlockBytes(geo, m, 256), 0);
                  Lookup(first, e.name) == None && Lookup(all, e.name) == Some(e.inode))
  {
    DirIsTiled(geo, m, size, blocks, n);
    if n > 256 {
      NextIsNotSeen(geo, m, n, 256);
    }
  }

  /** A block that is not empty begins with an entry. */
  lemma BlockBegins(geo: Geometry, m: Image, k: nat) returns (e: Entry, rest: seq<Entry>)
    requires geo.Ok() && BlockBytes(geo, m, k) != [] && Tiled(BlockBytes(geo, m, k), 0)
    ensures RecordAt(BlockBytes(geo, m, k), 0) && e == EntryAt(BlockBytes(geo, m, k), 0)
    ensures DirEntries(geo, m, k + 1) == DirEntries(geo, m, k) + ([e] + rest)
  {
    hide BlockBytes;
    var b := BlockBytes(geo, m, k);
    RecordStep(b, 0);
    e, rest := EntryAt(b, 0), Entries(b, RecLen(b, 0));
    assert BlockEntries(geo, m, k) == [e] + rest;
  }

  lemma NextIsNotSeen(geo: Geometry, m: Image, n: nat, k: nat)
    requires geo.Ok() && k < n && AllTiled(geo, m, n) && AllDiffer(DirEntries(geo, m, n))
    ensures RecordAt(BlockBytes(geo, m, k), 0)
    ensures var e := EntryAt(BlockBytes(geo, m, k), 0);
            Lookup(DirEntries(geo, m, k), e.name) == None && Lookup(DirEntries(geo, m, n), e.name) == Some(e.inode)
  {
    hide BlockBytes, Tiled, RecordAt, EntryAt, RecLen, Matches, Lookup, DirEntries, Entries, AllDiffer;
    var e, rest := BlockBegins(geo, m, k);
    var first, all := DirEntries(geo, m, k), DirEntries(geo, m, k + 1);
    DirPrefix(geo, m, k + 1, n);
    var more := DirEntries(geo, m, n)[|all|..];
    assert DirEntries(geo, m, n) == first + ([e] + (rest + more));
    NextDiffers(first, e, rest + more, DirEntries(geo, m, n));
  }

  /** An entry that differs from all before it is found only when the lookup gets to it. */
  lemma NextDiffers(first: seq<Entry>, e: Entry, rest: seq<Entry>, all: seq<Entry>)
    requires AllDiffer(all) && all == first + ([e] + rest)
    ensures Lookup(first, e.name) == None && Lookup(all, e.name) == Some(e.inode)
  {
    forall x | x in first
      ensures !Matches(x.name, e.name)
    {
      var i :| 0 <= i < |first| && first[i] == x;
      assert all[i] == x && all[|first|] == e;
    }
    LookupNone(first, e.name);
    LookupAppend(first, [e] + rest, e.name);
  }

  // ---------------------------------------------------------------- insertion and lookup agree

  /** After AddDirEntry under a name that no entry had, that name is found, and every other
      name is found as before. */
  lemma AddedIsFound(before: seq<Entry>, e: Entry, after: seq<Entry>, name: seq<byte>)
    requires OneMore(before, e, after) && Lookup(before, e.name) == None
    ensures Lookup(after, e.name) == Some(e.inode)
    ensures !Matches(e.name, name) ==> Lookup(after, name) == Lookup(before, name)
    ensures Lookup(before, name) != None ==> Lookup(after, name) == Lookup(before, name)
  {
    LookupOneMore(before, e, after, e.name);
    LookupOneMore(before, e, after, name);
    if Matches(e.name, name) {
      LookupNone(before, e.name);
      LookupNone(before, name);
      assert forall x :: x in before && Matches(x.name, name) ==> Matches(x.name, e.name);
    }
  }

  /** A new name leaves all names different. */
  lemma AddedDiffers(before: seq<Entry>, e: Entry, after: seq<Entry>)
    requires OneMore(before, e, after) && AllDiffer(before) && Lookup(before, e.name) == None
    ensures AllDiffer(after)
  {
    LookupNone(before, e.name);
    var k :| 0 <= k <= |before| && after == before[..k] + [e] + before[k..];
    forall i, j | 0 <= i < j < |after|
      ensures !Matches(after[i].name, after[j].name)
    {
      var a, b := if i < k then i else i - 1, if j < k then j else j - 1;
      assert i != k ==> after[i] == before[a] && before[a] in before;
      assert j != k ==> after[j] == before[b] && before[b] in before;
    }
  }

  /** What the lookup of ext2_FindDirectory sees of a new name: its inode exactly when the
      directory had less than 256 blocks, or room in one of the first 256; all other names are
      answered as before. */
  lemma AddedIsSeenIff(geo: Geometry, m: Image, n: nat, e: Entry, m': Image, at: nat)
    requires geo.Ok() && InsertedAt(geo, m, n, e, m', at) && FirstWithRoom(geo, m, n, EntrySize(|e.name|), at)
    requires Lookup(DirEntries(geo, m, n), e.name) == None
    ensures var all := DirEntries(geo, m', InView(After(n, at)));
            && (Lookup(all, e.name) == Some(e.inode) <==> n < 256 || !NoRoom(geo, m, 256, EntrySize(|e.name|)))
            && (Lookup(all, e.name) == None <==> n >= 256 && NoRoom(geo, m, 256, EntrySize(|e.name|)))
            && forall name :: !Matches(e.name, name) ==>
                 Lookup(all, name) == Lookup(DirEntries(geo, m, InView(n)), name)
  {
    hide OneMore, BlockEntries, NoRoom, Matches, Lookup;
    if Lookup(DirEntries(geo, m, InView(n)), e.name) != None {
      LookupPrefix(geo, m, InView(n), n, e.name);
    }
    LandsInView(geo, m, n, EntrySize(|e.name|), at);
    if at >= 256 {
      DirSame(geo, m, m', 256);
      return;
    }
    ViewOneMore(geo, m, n, e, m', at);
    forall name | !Matches(e.name, name)
      ensures Lookup(DirEntries(geo, m', InView(After(n, at))), name) == Lookup(DirEntries(geo, m, InView(n)), name)
    {
      LookupOneMore(DirEntries(geo, m, InView(n)), e, DirEntries(geo, m', InView(After(n, at))), name);
    }
    MatchesItself(e.name);
    LookupOneMore(DirEntries(geo, m, InView(n)), e, DirEntries(geo, m', InView(After(n, at))), e.name);
  }

  lemma MatchesItself(name: seq<byte>)
    ensures Matches(name, name)
  {
  }

  /** The entry lands in a block that the lookup sees. */
  lemma LandsInView(geo: Geometry, m: Image, n: nat, need: nat, at: nat)
    requires geo.Ok() && FirstWithRoom(geo, m, n, need, at)
    ensures at < 256 <==> n < 256 || !NoRoom(geo, m, 256, need)
  {
    if at >= 256 {
      NoRoomBefore(geo, m, 256, at, need);
    } else if n >= 256 && NoRoom(geo, m, 256, need) {
      NoRoomBefore(geo, m, at + 1, 256, need);
    }
  }

  lemma ViewOneMore(geo: Geometry, m: Image, n: nat, e: Entry, m': Image, at: nat)
    requires geo.Ok() && InsertedAt(geo, m, n, e, m', at) && at < 256
    ensures OneMore(DirEntries(geo, m, InView(n)), e, DirEntries(geo, m', InView(After(n, at))))
  {
    hide OneMore, BlockEntries;
    if at < n {
      DirOneMore(geo, m, m', InView(n), at, e);
    } else {
      InsertedIsOneMore(geo, m, n, e, m', at);
    }
  }
}
