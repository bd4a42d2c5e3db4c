/** The structures of the RAM handler (ram_handler.h) and the constants its block
    arithmetic uses. Pointers of the source are object references; the one field
    `on_List`, which the source casts to three different types, is three fields. */
module RamTypes {
  import opened Machine

  const MIN_BLKSIZE := 1024
  const FIRSTBUFFPOS := 8
  const MAX_WRITE := FIRSTBUFFPOS + MIN_BLKSIZE - 1
  const DATA_BLOCK_SIZE := MIN_BLKSIZE / 4 + FIRSTBUFFPOS / 4
  const MAX_FILENAME := 30

  const EXCLUSIVE_LOCK := -1
  const SHARED_LOCK := -2

  /** on_Protection: the bits FIBF_DELETE and FIBF_ARCHIVE, and all the others. */
  datatype Protection = Protection(delete: bool, archive: bool, others: nat)

  const NO_PROTECTION := Protection(false, false, 0)

  const SEEK_SET := 0
  const SEEK_CUR := 1
  const SEEK_END := 2

  datatype Error =
    | NoError
    | ObjectNotFound
    | ObjectExists
    | ObjectInUse
    | ObjectWrongType
    | InvalidLock
    | InvalidComponentName
    | DirectoryNotEmpty
    | DeleteProtected
    | SeekError
    | NoFreeStore
    | LockCollision
    | RecordNotLocked

  /** The node kinds; link kinds stand for hard links. */
  datatype Kind = File | UserDir | LinkFile | LinkDir
  {
    predicate IsLink() {
      LinkFile? || LinkDir?
    }

    /** The source tells files and links to files by a negative type code. */
    predicate IsNegative() {
      File? || LinkFile?
    }
  }

  /** struct DataBlock: `size` is the offset of the last used byte, counted from the
      start of the struct, so an empty block has size FIRSTBUFFPOS - 1. */
  class DataBlock {
    var next: DataBlock?
    var size: int
    const bytes: array<byte>

    constructor ()
      ensures next == null && size == FIRSTBUFFPOS - 1
      ensures fresh(bytes) && bytes.Length == MIN_BLKSIZE
    {
      next := null;
      size := FIRSTBUFFPOS - 1;
      bytes := new byte[MIN_BLKSIZE];
    }
  }

  /** struct ObjNode. The ghost fields name what the pointer chains hold. */
  class ObjNode {
    var next: ObjNode?        // on_Next
    var parent: ObjNode?      // on_Parent
    var firstChild: ObjNode?  // on_List of a directory
    var data: DataBlock?      // on_List of a file
    var target: ObjNode?      // on_List of a hard link
    var firstLink: ObjNode?   // on_FirstLink
    var size: int             // on_Size
    var protection: Protection      // on_Protection
    var kind: Kind            // on_Type
    var name: string          // on_FileName

    ghost var chain: seq<DataBlock>  // the blocks reached from data
    ghost var content: seq<byte>     // the bytes those blocks hold
    ghost var kids: seq<ObjNode>     // the nodes reached from firstChild by next
    ghost var links: seq<ObjNode>    // the nodes reached from firstLink by firstLink
    ghost var rank: nat              // larger than the parent's

    constructor (name: string, parent: ObjNode?, kind: Kind, protection: Protection)
      ensures this.name == name && this.parent == parent && this.kind == kind && this.protection == protection
      ensures next == null && firstChild == null && data == null && target == null && firstLink == null && size == 0
      ensures chain == [] && content == [] && kids == [] && links == [] && rank == 0
    {
      this.name, this.parent, this.kind, this.protection := name, parent, kind, protection;
      next, firstChild, data, target, firstLink, size := null, null, null, null, null, 0;
      chain, content, kids, links, rank := [], [], [], [], 0;
    }
  }

  /** struct RamLock: a lock on a node, and the read/write cursor of a file handle. */
  class RamLock {
    const key: ObjNode        // fl_Key
    var next: RamLock?        // fl_Next
    var access: int           // fl_Access
    var block: DataBlock?     // rl_Block
    var offset: int           // rl_Offset
    var cpos: int             // rl_CPos
    var modified: bool        // the LOCK_MODIFY flag
    ghost var index: nat      // which block of the key's chain `block` is

    constructor (key: ObjNode, access: int)
      ensures this.key == key && this.access == access && next == null
      ensures block == key.data && offset == FIRSTBUFFPOS && cpos == 0 && !modified && index == 0
    {
      this.key, this.access, next := key, access, null;
      block, offset, cpos, modified, index := key.data, FIRSTBUFFPOS, 0, false, 0;
    }
  }

  /** struct GlobalData of the handler. */
  class GlobalData {
    const root: ObjNode       // gd_Root
    var lockList: RamLock?    // gd_LockList
    var spaceUsed: int        // gd_SpaceUsed
    var fileErr: Error        // gd_FileErr
    const reliable: bool      // every AllocVec succeeds; otherwise each one may fail
    ghost var locks: seq<RamLock>  // the locks reached from lockList
    ghost var nodes: set<ObjNode>  // the live nodes, the root among them

    constructor (reliable: bool)
      ensures this.reliable == reliable
      ensures fresh(root) && root.name == "Ram Disk" && root.parent == null && root.kind == UserDir
      ensures root.kids == [] && root.links == [] && root.chain == [] && root.firstChild == null
      ensures root.firstLink == null && root.data == null && root.size == 0 && root.content == []
      ensures root.target == null && root.next == null
      ensures lockList == null && spaceUsed == 1 && fileErr == NoError
      ensures locks == [] && nodes == {root}
    {
      this.reliable := reliable;
      root := new ObjNode("Ram Disk", null, UserDir, NO_PROTECTION);
      lockList, spaceUsed, fileErr := null, 1, NoError;
      locks := [];
      new;
      nodes := {root};
    }
  }
}
