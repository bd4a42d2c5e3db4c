/** The parts of an ext2 volume that the allocator and the block tree work on. The block
    cache is a map from block numbers to contents, and no block operation fails. */
module Ext2Disk {
  import opened Machine

  /** The contents of a block: 32-bit words in a bitmap or a block of pointers, bytes otherwise. */
  datatype Block = Words(words: seq<Word>) | Bytes(bytes: seq<byte>)

  /** A word as its bytes, the low one first. */
  function ByteOfWord(w: Word, i: nat): byte {
    if i == 0 then (w % 256) as byte else ByteOfWord(w / 256, i - 1)
  }

  /** The contents of a block as bytes. */
  function BytesOf(b: Block): (bytes: seq<byte>)
    ensures |bytes| == match b case Bytes(bs) => |bs| case Words(ws) => 4 * |ws|
  {
    match b
    case Bytes(bytes) => bytes
    case Words(words) => seq(4 * |words|, i requires 0 <= i < 4 * |words| => ByteOfWord(words[i / 4], i % 4))
  }

  /** A block of words has the bytes of its words in order, the lowest of each first. */
  lemma BytesAre(words: seq<Word>, k: nat)
    requires k < |words|
    ensures var b := BytesOf(Words(words));
            && 4 * k + 3 < |b|
            && words[k] == b[4 * k] as nat + 0x100 * b[4 * k + 1] as nat + 0x1_0000 * b[4 * k + 2] as nat
                           + 0x100_0000 * b[4 * k + 3] as nat
  {
    var w := words[k];
    var b := BytesOf(Words(words));
    assert (4 * k) / 4 == (4 * k + 1) / 4 == (4 * k + 2) / 4 == (4 * k + 3) / 4 == k;
    assert (4 * k) % 4 == 0 && (4 * k + 1) % 4 == 1 && (4 * k + 2) % 4 == 2 && (4 * k + 3) % 4 == 3;
    assert b[4 * k] == ByteOfWord(w, 0) && b[4 * k + 1] == ByteOfWord(w, 1);
    assert b[4 * k + 2] == ByteOfWord(w, 2) && b[4 * k + 3] == ByteOfWord(w, 3);
    FourBytes(w);
  }

  lemma FourBytes(w: Word)
    ensures w == ByteOfWord(w, 0) as nat + 0x100 * ByteOfWord(w, 1) as nat + 0x1_0000 * ByteOfWord(w, 2) as nat
                 + 0x100_0000 * ByteOfWord(w, 3) as nat
  {
    var x: Word := w / 256;
    var y: Word := x / 256;
    var z: Word := y / 256;
    ByteOfShifted(w, 1);
    ByteOfShifted(w, 2);
    ByteOfShifted(w, 3);
    ByteOfShifted(x, 1);
    ByteOfShifted(x, 2);
    ByteOfShifted(y, 1);
    assert ByteOfWord(z, 0) as nat == z;
  }

  lemma ByteOfShifted(w: Word, i: nat)
    requires i > 0
    ensures ByteOfWord(w, i) == ByteOfWord(w / 256, i - 1)
  {
  }

  const EXT2_DIRECT_BLOCKS := 12

  datatype Geometry = Geometry(blockSize: nat, perGroup: nat, firstData: nat)
  {
    /** pointers_per_block */
    function Pointers(): nat {
      blockSize / 4
    }

    predicate Ok() {
      && blockSize in {1024, 2048, 4096}
      && 0 < perGroup <= 8 * blockSize
    }

    predicate SizeOk(b: Block) {
      match b
      case Words(words) => |words| == Pointers()
      case Bytes(bytes) => |bytes| == blockSize
    }
  }

  /** struct ext2_bgdescriptor: the bitmap block and the free counts. */
  datatype Group = Group(bitmap: nat, freeBlocks: nat, freeInodes: nat)

  datatype Error = NoError | DiskFull | ObjectTooLarge | SeekError

  /** struct GlobalData: block groups, superblock counter and cache. */
  class Volume {
    const geo: Geometry
    var groups: seq<Group>
    var freeBlocks: nat
    var disk: map<nat, Block>
    var fileErr: Error

    constructor (geo: Geometry, groups: seq<Group>, freeBlocks: nat, disk: map<nat, Block>)
      ensures this.geo == geo && this.groups == groups && this.freeBlocks == freeBlocks && this.disk == disk
      ensures fileErr == NoError
    {
      this.geo, this.groups, this.freeBlocks, this.disk, fileErr := geo, groups, freeBlocks, disk, NoError;
    }
  }

  /** struct ext2_inodetable: the fifteen block numbers, the count of 512-byte sectors, the size,
      and the links_count of 16 bits. */
  class Inode {
    var block: seq<Word>
    var blocks: int
    var size: nat
    var links: nat

    constructor ()
      ensures block == seq(15, _ => 0) && blocks == 0 && size == 0 && links == 0
    {
      block, blocks, size, links := seq(15, _ => 0), 0, 0, 0;
    }
  }

  /** fs_node_t and struct FSLock, as far as reading and writing need them. */
  class FsNode {
    const inode: Inode
    var length: nat

    constructor (inode: Inode)
      ensures this.inode == inode && length == inode.size
    {
      this.inode, length := inode, inode.size;
    }
  }

  class FSLock {
    const key: FsNode
    var offset: nat

    constructor (key: FsNode)
      ensures this.key == key && offset == 0
    {
      this.key, offset := key, 0;
    }
  }
}
