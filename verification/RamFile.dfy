/** rh_Read, rh_Write, rh_Seek and rh_FreeList of the RAM handler: a file is a linked
    chain of blocks, and every handle on it keeps its own cursor into that chain. The
    methods refine operations on a plain byte sequence (module RamFileSpec). */
module RamFile {
  import opened Machine
  import opened RamTypes
  import opened RamFileSpec
  import opened RamLocks

  // ---------------------------------------------------------------- representation

  function BlockAfter(chain: seq<DataBlock>, i: nat): DataBlock?
    requires i < |chain|
  {
    if i + 1 < |chain| then chain[i + 1] else null
  }

  predicate Apart(a: DataBlock, b: DataBlock) {
    a != b && a.bytes != b.bytes
  }

  ghost predicate BlockOk(chain: seq<DataBlock>, i: nat)
    requires i < |chain|
    reads chain[i]
  {
    && chain[i].next == BlockAfter(chain, i)
    && chain[i].bytes.Length == 1024
    && FIRSTBUFFPOS - 1 <= chain[i].size <= MAX_WRITE
    && (i + 1 < |chain| ==> chain[i].size == MAX_WRITE)
  }

  function Used(b: DataBlock): int
    reads b
  {
    b.size - (FIRSTBUFFPOS - 1)
  }

  ghost predicate BlocksOk(chain: seq<DataBlock>)
    reads chain
  {
    forall i {:trigger BlockOk(chain, i)} :: 0 <= i < |chain| ==> BlockOk(chain, i)
  }

  ghost predicate Separate(chain: seq<DataBlock>) {
    forall i, j {:trigger Apart(chain[i], chain[j])} :: 0 <= i < j < |chain| ==> Apart(chain[i], chain[j])
  }

  /** Byte `j` of block `i` is byte 1024 * i + j of the file. */
  ghost predicate ByteOk(chain: seq<DataBlock>, content: seq<byte>, i: int, j: int)
    requires BlocksOk(chain)
    reads chain, set b | b in chain :: b.bytes
  {
    0 <= i < |chain| && 0 <= j < Used(chain[i]) ==>
      BlockOk(chain, i) && 1024 * i + j < |content| && content[1024 * i + j] == chain[i].bytes[j]
  }

  ghost predicate DataOk(chain: seq<DataBlock>, content: seq<byte>)
    requires BlocksOk(chain)
    reads chain, set b | b in chain :: b.bytes
  {
    && |content| == (if chain == [] then 0 else 1024 * (|chain| - 1) + Used(chain[|chain| - 1]))
    && forall i, j {:trigger ByteOk(chain, content, i, j)} :: ByteOk(chain, content, i, j)
  }

  /** The chain from `head` is `chain`, its blocks hold `content`, and all but the last are full. */
  ghost predicate ChainOk(head: DataBlock?, chain: seq<DataBlock>, content: seq<byte>)
    reads chain, set b | b in chain :: b.bytes
  {
    && head == (if chain == [] then null else chain[0])
    && BlocksOk(chain)
    && Separate(chain)
    && DataOk(chain, content)
  }

  /** Only a chain of one block may end in an empty block. */
  ghost predicate Tidy(chain: seq<DataBlock>)
    reads chain
  {
    |chain| > 1 ==> chain[|chain| - 1].size >= FIRSTBUFFPOS
  }

  ghost predicate FileOk(n: ObjNode)
    reads n`data, n`chain, n`content, n`size, n.chain, set b | b in n.chain :: b.bytes
  {
    ChainOk(n.data, n.chain, n.content) && Tidy(n.chain) && n.size == |n.content|
  }

  /** The cursor is where its position says. At a block boundary it stays at the end of
      the earlier block, so a position has one representation only. */
  ghost predicate CursorAt(chain: seq<DataBlock>, length: nat, block: DataBlock?, offset: int, cpos: int, index: nat) {
    if chain == [] then
      block == null && offset == FIRSTBUFFPOS && cpos == 0 && index == 0
    else
      && index < |chain|
      && block == chain[index]
      && FIRSTBUFFPOS <= offset <= MAX_WRITE + 1
      && (index > 0 ==> offset > FIRSTBUFFPOS)
      && cpos == 1024 * index + (offset - FIRSTBUFFPOS)
      && cpos <= length
  }

  ghost predicate CursorOk(l: RamLock, n: ObjNode)
    reads l`block, l`offset, l`cpos, l`index, n`chain, n`content
  {
    CursorAt(n.chain, |n.content|, l.block, l.offset, l.cpos, l.index)
  }

  /** The cursors in `locks` that belong to `n` are consistent with such a chain. */
  ghost predicate CursorsIn(locks: seq<RamLock>, n: ObjNode, chain: seq<DataBlock>, length: nat)
    reads locks`block, locks`offset, locks`cpos, locks`index
  {
    forall l :: l in locks && l.key == n ==> CursorAt(chain, length, l.block, l.offset, l.cpos, l.index)
  }

  ghost predicate CursorsOk(locks: seq<RamLock>, n: ObjNode)
    reads locks`block, locks`offset, locks`cpos, locks`index, n`chain, n`content
  {
    CursorsIn(locks, n, n.chain, |n.content|)
  }

  /** What a block holds is a slice of the file. */
  lemma BlockSlice(head: DataBlock?, chain: seq<DataBlock>, content: seq<byte>, k: nat, lo: nat, hi: nat)
    requires ChainOk(head, chain, content)
    requires k < |chain| && lo <= hi <= Used(chain[k])
    ensures 1024 * k + hi <= |content| && BlockOk(chain, k)
    ensures content[1024 * k + lo..1024 * k + hi] == chain[k].bytes[lo..hi]
  {
    assert BlockOk(chain, k) && BlockOk(chain, |chain| - 1);
    var got, want := content[1024 * k + lo..1024 * k + hi], chain[k].bytes[lo..hi];
    forall i | 0 <= i < |got|
      ensures got[i] == want[i]
    {
      assert ByteOk(chain, content, k, lo + i);
    }
  }

  // ---------------------------------------------------------------- rh_Read

  /** xfer from block `k` of a file into the caller's buffer. */
  method XferOut(n: ObjNode, ghost k: nat, pos: DataBlock, offset: int, buf: array<byte>, at: int, tsize: int,
                 ghost from: nat)
    requires ChainOk(n.data, n.chain, n.content) && k < |n.chain| && pos == n.chain[k] && pos.bytes != buf
    requires 0 <= tsize && FIRSTBUFFPOS <= offset && offset + tsize <= pos.size + 1
    requires 0 <= at && at + tsize <= buf.Length && from == 1024 * k + (offset - FIRSTBUFFPOS)
    modifies buf
    ensures from + tsize <= |n.content|
    ensures forall i :: at <= i < at + tsize ==> buf[i] == n.content[from + (i - at)]
    ensures forall i :: 0 <= i < at || at + tsize <= i < buf.Length ==> buf[i] == old(buf[i])
  {
    BlockSlice(n.data, n.chain, n.content, k, offset - FIRSTBUFFPOS, offset - FIRSTBUFFPOS + tsize);
    ghost var slice := n.content[from..from + tsize];
    assert slice == pos.bytes[offset - FIRSTBUFFPOS..offset - FIRSTBUFFPOS + tsize];
    forall i | 0 <= i < tsize {
      buf[at + i] := pos.bytes[offset - FIRSTBUFFPOS + i];
    }
    assert forall i :: at <= i < at + tsize ==> buf[i] == slice[i - at];
  }

  /** Block `k` of a file, and where the chain goes from there. */
  lemma BlockFacts(n: ObjNode, k: nat)
    requires FileOk(n) && k < |n.chain|
    ensures n.chain[k].next == BlockAfter(n.chain, k)
    ensures n.chain[k].next == null ==> |n.content| == 1024 * k + Used(n.chain[k])
    ensures n.chain[k].next != null ==> Used(n.chain[k]) == 1024 && 1024 * (k + 1) < |n.content|
    ensures 0 <= Used(n.chain[k]) <= 1024 && 1024 * k + Used(n.chain[k]) <= |n.content|
    ensures k > 0 ==> Used(n.chain[k]) > 0
  {
    assert BlockOk(n.chain, k) && BlockOk(n.chain, |n.chain| - 1);
  }

  /** The copying loop of rh_Read; `from` is the position it starts at. */
  method ReadLoop(n: ObjNode, first: DataBlock, start: int, buf: array<byte>, size: int, ghost k0: nat)
    returns (pos: DataBlock, offset: int, count: int, ghost k: nat)
    requires FileOk(n) && k0 < |n.chain| && first == n.chain[k0]
    requires FIRSTBUFFPOS <= start <= first.size + 1 && (k0 > 0 ==> start > FIRSTBUFFPOS)
    requires size <= buf.Length && forall b :: b in n.chain ==> b.bytes != buf
    modifies buf
    ensures 1024 * k0 + (start - FIRSTBUFFPOS) <= |n.content|
    ensures count == ReadCount(|n.content|, 1024 * k0 + (start - FIRSTBUFFPOS), size)
    ensures forall i :: 0 <= i < count ==> buf[i] == n.content[1024 * k0 + (start - FIRSTBUFFPOS) + i]
    ensures forall i :: count <= i < buf.Length ==> buf[i] == old(buf[i])
    ensures k < |n.chain| && pos == n.chain[k] && FIRSTBUFFPOS <= offset <= pos.size + 1
    ensures (k > 0 ==> offset > FIRSTBUFFPOS)
    ensures 1024 * k + (offset - FIRSTBUFFPOS) == 1024 * k0 + (start - FIRSTBUFFPOS) + count
  {
    pos, offset, k := first, start, k0;
    BlockFacts(n, k);
    ghost var from := 1024 * k0 + (start - FIRSTBUFFPOS);
    var max := pos.size;
    count := 0;
    var needed := size;
    while needed > 0
      invariant k < |n.chain| && pos == n.chain[k] && max == pos.size
      invariant FIRSTBUFFPOS <= offset <= max + 1
      invariant from + count == 1024 * k + (offset - FIRSTBUFFPOS) <= |n.content|
      invariant 0 <= count <= buf.Length && needed == size - count && (needed >= 0 || count == 0)
      invariant k > 0 ==> offset > FIRSTBUFFPOS || (needed > 0 && max >= FIRSTBUFFPOS)
      invariant forall i :: 0 <= i < count ==> buf[i] == n.content[from + i]
      invariant forall i :: count <= i < buf.Length ==> buf[i] == old(buf[i])
      decreases needed, |n.chain| - k
    {
      BlockFacts(n, k);
      var avail := max - offset + 1;
      if avail <= 0 {
        var next := pos.next;
        if next == null {
          break;
        }
        pos, k := next, k + 1;
        BlockFacts(n, k);
        max := pos.size;
        offset := FIRSTBUFFPOS;
        continue;
      }
      var tsize := if avail < needed then avail else needed;
      XferOut(n, k, pos, offset, buf, count, tsize, from + count);
      count := count + tsize;
      offset := offset + tsize;
      needed := needed - tsize;
    }
  }

  method Read(lock: RamLock, n: ObjNode, buf: array<byte>, size: int) returns (count: int)
    requires FileOk(n) && lock.key == n && CursorOk(lock, n)
    requires size <= buf.Length && forall b :: b in n.chain ==> b.bytes != buf
    modifies lock`block, lock`offset, lock`cpos, lock`index, buf
    ensures count == ReadCount(|n.content|, old(lock.cpos), size)
    ensures forall i :: 0 <= i < count ==> buf[i] == n.content[old(lock.cpos) + i]
    ensures forall i :: count <= i < buf.Length ==> buf[i] == old(buf[i])
    ensures CursorOk(lock, n) && lock.cpos == old(lock.cpos) + count
  {
    if lock.block == null {
      return 0;
    }
    BlockFacts(n, lock.index);
    var pos, offset;
    ghost var k;
    pos, offset, count, k := ReadLoop(n, lock.block, lock.offset, buf, size, lock.index);
    BlockFacts(n, k);
    lock.block := pos;
    lock.offset := offset;
    lock.cpos := lock.cpos + count;
    lock.index := k;
  }

  // ---------------------------------------------------------------- rh_Write

  /** Two blocks of a chain share nothing. */
  lemma OnlyBlock(n: ObjNode, k: nat, i: nat)
    requires k < |n.chain| && i < |n.chain|
    requires Separate(n.chain)
    ensures i != k ==> n.chain[i] != n.chain[k] && n.chain[i].bytes != n.chain[k].bytes
  {
    if i < k {
      assert Apart(n.chain[i], n.chain[k]);
    } else if k < i {
      assert Apart(n.chain[k], n.chain[i]);
    }
  }

  /** xfer from the caller's buffer into a block, and the db_Size update after it. */
  method StoreBytes(pos: DataBlock, offset: int, buf: seq<byte>, at: int, tsize: int)
    requires pos.bytes.Length == 1024
    requires FIRSTBUFFPOS <= offset && 0 <= tsize && offset + tsize <= MAX_WRITE + 1
    requires 0 <= at && at + tsize <= |buf|
    modifies pos`size, pos.bytes
    ensures pos.size == if offset + tsize > old(pos.size) then offset + tsize - 1 else old(pos.size)
    ensures forall m :: 0 <= m < 1024 ==>
              pos.bytes[m] == if offset - FIRSTBUFFPOS <= m < offset - FIRSTBUFFPOS + tsize
                              then buf[at + (m - (offset - FIRSTBUFFPOS))] else old(pos.bytes[m])
  {
    forall i | 0 <= i < tsize {
      pos.bytes[offset - FIRSTBUFFPOS + i] := buf[at + i];
    }
    if offset + tsize > pos.size {
      pos.size := offset + tsize - 1;
    }
  }

  /** The same for block `k` of a file, seen on the file's content. */
  method XferIn(n: ObjNode, ghost k: nat, pos: DataBlock, offset: int, buf: seq<byte>, at: int, tsize: int)
    requires ChainOk(n.data, n.chain, n.content) && k < |n.chain| && pos == n.chain[k]
    requires FIRSTBUFFPOS <= offset <= pos.size + 1 && 0 <= tsize && offset + tsize <= MAX_WRITE + 1
    requires 0 <= at && at + tsize <= |buf|
    modifies pos`size, pos.bytes, n`content
    ensures ChainOk(n.data, n.chain, n.content)
    ensures 1024 * k + (offset - FIRSTBUFFPOS) <= |old(n.content)|
    ensures n.content == Splice(old(n.content), 1024 * k + (offset - FIRSTBUFFPOS), buf[at..at + tsize])
    ensures pos.size >= offset + tsize - 1
  {
    hide Splice, Separate;
    assert BlockOk(n.chain, k) && BlockOk(n.chain, |n.chain| - 1);
    ghost var from := 1024 * k + (offset - FIRSTBUFFPOS);
    ghost var chain, bytes := n.chain, buf[at..at + tsize];
    StoreBytes(pos, offset, buf, at, tsize);
    n.content := Splice(n.content, from, bytes);
    forall i {:trigger BlockOk(chain, i)} | 0 <= i < |chain|
      ensures BlockOk(chain, i)
    {
      OnlyBlock(n, k, i);
      assert old(BlockOk(chain, i));
    }
    assert BlocksOk(chain);
    forall i, j
      ensures ByteOk(chain, n.content, i, j)
    {
      if 0 <= i < |chain| && 0 <= j < Used(chain[i]) {
        OnlyBlock(n, k, i);
        assert BlockOk(chain, i) && old(BlockOk(chain, i)) && old(ByteOk(chain, n.content, i, j));
        SpliceIndex(old(n.content), from, bytes, 1024 * i + j);
      }
    }
    assert DataOk(chain, n.content);
  }

  /** A fresh block behind the last one. */
  method AppendBlock(gd: GlobalData, n: ObjNode, last: DataBlock) returns (next: DataBlock)
    requires ChainOk(n.data, n.chain, n.content)
    requires n.chain != [] && last == n.chain[|n.chain| - 1] && Used(last) == 1024
    modifies last`next, n`chain, gd`spaceUsed
    ensures fresh(next) && fresh(next.bytes) && next.size == FIRSTBUFFPOS - 1
    ensures n.chain == old(n.chain) + [next] && gd.spaceUsed == old(gd.spaceUsed) + 1
    ensures ChainOk(n.data, n.chain, n.content)
  {
    next := new DataBlock();
    last.next := next;
    gd.spaceUsed := gd.spaceUsed + 1;
    n.chain := n.chain + [next];
    ghost var before, chain := old(n.chain), n.chain;
    forall i {:trigger BlockOk(chain, i)} | 0 <= i < |chain|
      ensures BlockOk(chain, i)
    {
      if i < |before| {
        assert old(BlockOk(before, i));
        if i < |before| - 1 {
          assert Apart(before[i], before[|before| - 1]);
        }
      }
    }
    assert BlocksOk(chain);
    forall i, j {:trigger Apart(chain[i], chain[j])} | 0 <= i < j < |chain|
      ensures Apart(chain[i], chain[j])
    {
      if j < |before| {
        assert Apart(before[i], before[j]);
      }
    }
    forall i, j
      ensures ByteOk(chain, n.content, i, j)
    {
      if 0 <= i < |before| {
        assert BlockOk(chain, i) && old(BlockOk(before, i)) && old(ByteOk(before, n.content, i, j));
      }
    }
    assert DataOk(chain, n.content);
  }

  /** The step to the next block, which is allocated when there is none. */
  method NextBlock(gd: GlobalData, n: ObjNode, pos: DataBlock, ghost k: nat) returns (next: DataBlock?)
    requires ChainOk(n.data, n.chain, n.content) && k < |n.chain| && pos == n.chain[k] && Used(pos) == 1024
    modifies pos`next, n`chain, gd`spaceUsed
    ensures ChainOk(n.data, n.chain, n.content)
    ensures next == null ==> unchanged(gd) && unchanged(n) && unchanged(pos) && !gd.reliable
    ensures next != null ==> k + 1 < |n.chain| && next == n.chain[k + 1]
    ensures n.chain == old(n.chain)
              || (next != null && n.chain == old(n.chain) + [next] && fresh(next) && fresh(next.bytes))
    ensures gd.spaceUsed - old(gd.spaceUsed) == |n.chain| - |old(n.chain)|
  {
    assert BlockOk(n.chain, k);
    next := pos.next;
    if next == null {
      var alloc: bool :| gd.reliable ==> alloc;  // AllocVec
      if alloc {
        next := AppendBlock(gd, n, pos);
      }
    }
  }

  /** One round of the copying loop continues the splice that the earlier rounds began. */
  method WriteChunk(n: ObjNode, ghost k: nat, pos: DataBlock, offset: int, buf: seq<byte>, count: int, tsize: int,
                    ghost content0: seq<byte>, ghost from: nat)
    requires ChainOk(n.data, n.chain, n.content) && k < |n.chain| && pos == n.chain[k]
    requires FIRSTBUFFPOS <= offset <= pos.size + 1 && 0 < tsize && offset + tsize <= MAX_WRITE + 1
    requires 0 <= count && count + tsize <= |buf| && from <= |content0|
    requires from + count == 1024 * k + (offset - FIRSTBUFFPOS)
    requires n.content == Splice(content0, from, buf[..count])
    requires Tidy(n.chain) || k == |n.chain| - 1
    modifies pos`size, pos.bytes, n`content
    ensures ChainOk(n.data, n.chain, n.content) && Tidy(n.chain)
    ensures n.content == Splice(content0, from, buf[..count + tsize])
    ensures pos.size >= offset + tsize - 1
  {
    assert BlockOk(n.chain, |n.chain| - 1);
    if |n.chain| > 1 && k != |n.chain| - 1 {
      OnlyBlock(n, k, |n.chain| - 1);
    }
    XferIn(n, k, pos, offset, buf, count, tsize);
    SpliceOn(content0, from, buf[..count], buf[count..count + tsize]);
    assert buf[..count] + buf[count..count + tsize] == buf[..count + tsize];
  }

  /** One round of the loop of rh_Write: move to the next block if this one is full, then copy. */
  method WriteRound(gd: GlobalData, n: ObjNode, at: DataBlock, start: int, buf: seq<byte>, count: int, bsize: int,
                    ghost k0: nat, ghost content0: seq<byte>, ghost from: nat)
    returns (pos: DataBlock, offset: int, tsize: int, ok: bool, ghost k: nat)
    requires ChainOk(n.data, n.chain, n.content) && Tidy(n.chain) && k0 < |n.chain| && at == n.chain[k0]
    requires FIRSTBUFFPOS <= start <= at.size + 1 && (k0 > 0 ==> start > FIRSTBUFFPOS)
    requires 0 <= count < bsize <= |buf| && from <= |content0| && from + count == 1024 * k0 + (start - FIRSTBUFFPOS)
    requires n.content == Splice(content0, from, buf[..count])
    modifies n`content, n`chain, gd`spaceUsed, n.chain, set b | b in n.chain :: b.bytes
    ensures ChainOk(n.data, n.chain, n.content) && Tidy(n.chain)
    ensures n.chain == old(n.chain) || (n.chain == old(n.chain) + [pos] && fresh(pos) && fresh(pos.bytes))
    ensures gd.spaceUsed - old(gd.spaceUsed) == |n.chain| - |old(n.chain)|
    ensures k < |n.chain| && pos == n.chain[k] && FIRSTBUFFPOS <= offset <= pos.size + 1
    ensures k > 0 ==> offset > FIRSTBUFFPOS
    ensures if ok then 0 < tsize <= bsize - count else tsize == 0 && !gd.reliable
    ensures n.content == Splice(content0, from, buf[..count + tsize])
    ensures 1024 * k + (offset - FIRSTBUFFPOS) == from + count + tsize
  {
    hide Splice, DataOk, Separate;
    assert BlockOk(n.chain, k0);
    pos, offset, k, ok, tsize := at, start, k0, true, 0;
    var max := MAX_WRITE;
    var needed := bsize - count;
    var avail := max - offset + 1;
    if avail <= 0 {
      var next := NextBlock(gd, n, pos, k);
      if next == null {
        ok := false;
        return;
      }
      pos, k := next, k + 1;
      assert BlockOk(n.chain, k);
      offset := FIRSTBUFFPOS;
      avail := max - FIRSTBUFFPOS + 1;
    }
    tsize := if avail < needed then avail else needed;
    WriteChunk(n, k, pos, offset, buf, count, tsize, content0, from);
    offset := offset + tsize;
  }

  /** The copying loop of rh_Write; `from` is the position it starts at, `ok` is false
      when a block could not be allocated. */
  method WriteLoop(gd: GlobalData, n: ObjNode, first: DataBlock, start: int, buf: seq<byte>, bsize: int, ghost k0: nat,
                   ghost from: nat)
    returns (pos: DataBlock, offset: int, count: int, ok: bool, ghost k: nat)
    requires FileOk(n) && k0 < |n.chain| && first == n.chain[k0]
    requires FIRSTBUFFPOS <= start <= first.size + 1 && (k0 > 0 ==> start > FIRSTBUFFPOS)
    requires from == 1024 * k0 + (start - FIRSTBUFFPOS) && bsize <= |buf|
    modifies n`content, n`chain, gd`spaceUsed, n.chain, set b | b in n.chain :: b.bytes
    ensures ChainOk(n.data, n.chain, n.content) && Tidy(n.chain)
    ensures old(n.chain) <= n.chain && gd.spaceUsed - old(gd.spaceUsed) == |n.chain| - |old(n.chain)|
    ensures forall i :: |old(n.chain)| <= i < |n.chain| ==> fresh(n.chain[i]) && fresh(n.chain[i].bytes)
    ensures 0 <= count && (count <= bsize || count == 0)
    ensures (if ok then count >= bsize else count < bsize && !gd.reliable)
    ensures from <= |old(n.content)| && n.content == Splice(old(n.content), from, buf[..count])
    ensures k < |n.chain| && pos == n.chain[k] && FIRSTBUFFPOS <= offset <= pos.size + 1
    ensures k > 0 ==> offset > FIRSTBUFFPOS
    ensures 1024 * k + (offset - FIRSTBUFFPOS) == from + count
  {
    pos, offset, k, count, ok := first, start, k0, 0, true;
    BlockFacts(n, k);
    ghost var content0, chain0 := n.content, n.chain;
    assert Splice(content0, from, []) == content0;
    hide ChainOk, Tidy, Splice;
    while count < bsize && ok
      invariant ChainOk(n.data, n.chain, n.content) && Tidy(n.chain)
      invariant chain0 <= n.chain && gd.spaceUsed - old(gd.spaceUsed) == |n.chain| - |chain0|
      invariant forall i :: |chain0| <= i < |n.chain| ==> fresh(n.chain[i]) && fresh(n.chain[i].bytes)
      invariant 0 <= count && (count <= bsize || count == 0) && (!ok ==> count < bsize && !gd.reliable)
      invariant n.content == Splice(content0, from, buf[..count])
      invariant k < |n.chain| && pos == n.chain[k] && FIRSTBUFFPOS <= offset <= pos.size + 1
      invariant k > 0 ==> offset > FIRSTBUFFPOS
      invariant 1024 * k + (offset - FIRSTBUFFPOS) == from + count
      decreases if ok then 1 else 0, bsize - count
    {
      var tsize;
      pos, offset, tsize, ok, k := WriteRound(gd, n, pos, offset, buf, count, bsize, k, content0, from);
      count := count + tsize;
    }
  }

  /** The copying loop and the on_Size update of rh_Write. */
  method WriteFile(gd: GlobalData, n: ObjNode, first: DataBlock, start: int, buf: seq<byte>, bsize: int, ghost k0: nat,
                   from: int)
    returns (pos: DataBlock, offset: int, count: int, ok: bool, ghost k: nat)
    requires FileOk(n) && bsize <= |buf|
    requires CursorAt(n.chain, |n.content|, first, start, from, k0)
    modifies n`content, n`chain, n`size, gd`spaceUsed, n.chain, set b | b in n.chain :: b.bytes
    ensures FileOk(n)
    ensures old(n.chain) <= n.chain && gd.spaceUsed - old(gd.spaceUsed) == |n.chain| - |old(n.chain)|
    ensures forall i :: |old(n.chain)| <= i < |n.chain| ==> fresh(n.chain[i]) && fresh(n.chain[i].bytes)
    ensures 0 <= count && (count <= bsize || count == 0)
    ensures (if ok then count >= bsize else count < bsize && !gd.reliable)
    ensures 0 <= from <= |old(n.content)| && n.content == Splice(old(n.content), from, buf[..count])
    ensures CursorAt(n.chain, |n.content|, pos, offset, from + count, k)
  {
    BlockFacts(n, k0);
    pos, offset, count, ok, k := WriteLoop(gd, n, first, start, buf, bsize, k0, from);
    if from + count > n.size {
      n.size := from + count;
    }
    BlockFacts(n, k);
  }

  /** Growing a file leaves the cursors where they are. */
  lemma CursorsKept(locks: seq<RamLock>, n: ObjNode, chain0: seq<DataBlock>, length0: nat)
    requires CursorsIn(locks, n, chain0, length0)
    requires chain0 <= n.chain && chain0 != [] && length0 <= |n.content|
    ensures CursorsOk(locks, n)
  {
  }

  /** Saves a cursor in the handle; the other handles are not concerned. */
  method SaveCursor(gd: GlobalData, lock: RamLock, n: ObjNode, pos: DataBlock, offset: int, cpos: int, ghost k: nat)
    requires CursorAt(n.chain, |n.content|, pos, offset, cpos, k) && lock.key == n
    requires forall l :: l in gd.locks && l.key == n && l != lock ==> CursorOk(l, n)
    modifies lock`block, lock`offset, lock`cpos, lock`index
    ensures CursorsOk(gd.locks, n) && CursorOk(lock, n) && lock.cpos == cpos
  {
    lock.block := pos;
    lock.offset := offset;
    lock.cpos := cpos;
    lock.index := k;
  }

  /** `bytes` is everything a failed write got into the file before the allocation failed. */
  method Write(gd: GlobalData, lock: RamLock, n: ObjNode, buf: seq<byte>, bsize: int)
    returns (count: int, ghost bytes: seq<byte>)
    requires FileOk(n) && n.chain != [] && lock.key == n && lock in gd.locks && CursorsOk(gd.locks, n)
    requires bsize <= |buf|
    modifies lock`block, lock`offset, lock`cpos, lock`modified, lock`index
    modifies n`content, n`chain, n`size, gd`spaceUsed, n.chain, set b | b in n.chain :: b.bytes
    ensures FileOk(n) && CursorsOk(gd.locks, n)
    ensures old(n.chain) <= n.chain && gd.spaceUsed - old(gd.spaceUsed) == |n.chain| - |old(n.chain)|
    ensures forall i :: |old(n.chain)| <= i < |n.chain| ==> fresh(n.chain[i]) && fresh(n.chain[i].bytes)
    ensures old(lock.cpos) <= |old(n.content)| && n.content == Splice(old(n.content), old(lock.cpos), bytes)
    ensures bytes <= buf && lock.modified
    ensures count != -1 ==> count == |bytes| == (if bsize > 0 then bsize else 0) && lock.cpos == old(lock.cpos) + count
    ensures count == -1 ==> |bytes| <= bsize && lock.cpos == old(lock.cpos) && !gd.reliable
  {
    var pos, offset, ok;
    ghost var k, chain0, length0 := 0, n.chain, |n.content|;
    assert CursorOk(lock, n);
    pos, offset, count, ok, k := WriteFile(gd, n, lock.block, lock.offset, buf, bsize, lock.index, lock.cpos);
    bytes := buf[..count];
    CursorsKept(gd.locks, n, chain0, length0);
    lock.modified := true;
    if ok {
      SaveCursor(gd, lock, n, pos, offset, lock.cpos + count, k);
    } else {
      count := -1;
    }
  }

  // ---------------------------------------------------------------- rh_FreeList, rh_Seek

  /** Counts the blocks from block `from` on; they leave the ghost chain, which is what
      freeing means here. */
  method FreeList(list: DataBlock?, ghost chain: seq<DataBlock>, ghost from: nat) returns (ret: int)
    requires BlocksOk(chain) && from <= |chain| && list == if from < |chain| then chain[from] else null
    ensures ret == |chain| - from
  {
    var rest := list;
    ghost var i := from;
    ret := 0;
    while rest != null
      invariant from <= i <= |chain| && ret == i - from
      invariant rest == if i < |chain| then chain[i] else null
      decreases |chain| - i
    {
      assert BlockOk(chain, i);
      var node := rest.next;
      ret := ret + 1;
      rest, i := node, i + 1;
    }
  }

  /** The largest position of a handle on `n` other than `lock` among the first `i` locks, but at least `dest`. */
  ghost function FurthestOf(locks: seq<RamLock>, i: nat, n: ObjNode, lock: RamLock, dest: int): int
    requires i <= |locks|
    reads locks
  {
    if i == 0 then dest
    else
      var r := FurthestOf(locks, i - 1, n, lock, dest);
      if locks[i - 1] != lock && locks[i - 1].key == n && locks[i - 1].cpos > r then locks[i - 1].cpos else r
  }

  ghost function Furthest(locks: seq<RamLock>, n: ObjNode, lock: RamLock, dest: int): int
    reads locks
  {
    FurthestOf(locks, |locks|, n, lock, dest)
  }

  /** It is an upper bound, and no more than that. */
  lemma {:induction false} FurthestBound(locks: seq<RamLock>, i: nat, n: ObjNode, lock: RamLock, dest: int)
    requires i <= |locks|
    ensures FurthestOf(locks, i, n, lock, dest) >= dest
    ensures forall j :: 0 <= j < i && locks[j].key == n && locks[j] != lock ==>
              locks[j].cpos <= FurthestOf(locks, i, n, lock, dest)
    ensures FurthestOf(locks, i, n, lock, dest) == dest
            || exists j ::
              0 <= j < i && locks[j].key == n && locks[j] != lock
                && locks[j].cpos == FurthestOf(locks, i, n, lock, dest)
  {
    if i > 0 {
      FurthestBound(locks, i - 1, n, lock, dest);
    }
  }

  /** The block that holds position `dest`: the first one whose end is not before it. */
  ghost predicate Holds(n: ObjNode, p: DataBlock?, k: nat, ptr: int, dest: int)
    reads n
  {
    && k < |n.chain| && p == n.chain[k] && ptr == 1024 * k
    && ptr <= dest <= ptr + 1024 && (k > 0 ==> ptr < dest)
  }

  /** The search loop of rh_Seek. Past the end of the file it returns no block, the last
      block, and the length. */
  method FindBlock(lock: RamLock, n: ObjNode, dest: int)
    returns (p: DataBlock?, lastp: DataBlock, ptr: int, ghost k: nat)
    requires FileOk(n) && n.chain != [] && CursorOk(lock, n) && 0 <= dest
    ensures dest <= |n.content| ==> Holds(n, p, k, ptr, dest)
    ensures dest > |n.content| ==> p == null && lastp == n.chain[|n.chain| - 1] && ptr == |n.content|
  {
    BlockFacts(n, lock.index);
    BlockFacts(n, 0);
    if dest > lock.cpos {
      p := lock.block;
      lastp := lock.block;
      ptr := lock.cpos - (lock.offset - FIRSTBUFFPOS);
      k := lock.index;
    } else {
      p := n.data;
      lastp := n.data;
      ptr := 0;
      k := 0;
    }
    while p != null
      invariant p == null ==> k == |n.chain| - 1 && lastp == n.chain[k] && ptr == |n.content| < dest
      invariant p != null ==> k < |n.chain| && p == n.chain[k] && ptr == 1024 * k <= dest && (k > 0 ==> ptr < dest)
      decreases p != null, |n.chain| - k
    {
      BlockFacts(n, k);
      var newcount := ptr + p.size - (FIRSTBUFFPOS - 1);
      if newcount >= dest {
        return;
      }
      ptr := newcount;
      lastp := p;
      p := p.next;
      if p != null {
        k := k + 1;
      }
    }
  }

  /** The walk over the lock list that keeps a shrinking file long enough for every other handle. */
  method FurthestCursor(gd: GlobalData, lock: RamLock, n: ObjNode, dest0: int, p0: DataBlock, ghost k0: nat, ptr0: int)
    returns (dest: int, p: DataBlock, ptr: int, ghost k: nat)
    requires CursorsOk(gd.locks, n) && LockListOk(gd.lockList, gd.locks)
    requires Holds(n, p0, k0, ptr0, dest0) && dest0 <= |n.content|
    ensures dest == Furthest(gd.locks, n, lock, dest0) <= |n.content|
    ensures Holds(n, p, k, ptr, dest)
  {
    dest, p, ptr, k := dest0, p0, ptr0, k0;
    var curr := gd.lockList;
    ghost var i := 0;
    while curr != null
      invariant 0 <= i <= |gd.locks| && curr == if i < |gd.locks| then gd.locks[i] else null
      invariant dest == FurthestOf(gd.locks, i, n, lock, dest0) <= |n.content|
      invariant Holds(n, p, k, ptr, dest)
      decreases |gd.locks| - i
    {
      if curr != lock {
        if curr.key == n && curr.cpos > dest {
          assert curr in gd.locks && CursorOk(curr, n);
          dest := curr.cpos;
          p := curr.block;
          ptr := dest + FIRSTBUFFPOS - curr.offset;
          k := curr.index;
        }
      }
      assert curr.next == LockAfter(gd.locks, i);
      curr, i := curr.next, i + 1;
    }
  }

  /** A cursor at or before the new end survives the cut after the block that holds the end. */
  lemma CutKeepsCursor(n: ObjNode, p: DataBlock, k: nat, ptr: int, dest: int, block: DataBlock?, offset: int, cpos: int,
                       index: nat)
    requires Holds(n, p, k, ptr, dest) && CursorAt(n.chain, |n.content|, block, offset, cpos, index) && cpos <= dest
    ensures CursorAt(n.chain[..k + 1], dest, block, offset, cpos, index)
  {
  }

  /** Ends the file at `dest`, which lies in block `k`. */
  method Cut(gd: GlobalData, n: ObjNode, p: DataBlock, ghost k: nat, ptr: int, dest: int)
    requires FileOk(n) && Holds(n, p, k, ptr, dest) && dest <= |n.content|
    modifies gd`spaceUsed, p`next, p`size, n`size, n`chain, n`content
    ensures FileOk(n) && n.chain == old(n.chain)[..k + 1] && n.content == old(n.content)[..dest]
    ensures gd.spaceUsed - old(gd.spaceUsed) == |n.chain| - |old(n.chain)|
  {
    BlockFacts(n, k);
    assert BlockOk(n.chain, k);
    ghost var before := n.chain;
    var freed := FreeList(p.next, n.chain, k + 1);
    gd.spaceUsed := gd.spaceUsed - freed;
    p.next := null;
    p.size := dest - ptr + (FIRSTBUFFPOS - 1);
    n.size := dest;
    n.chain := n.chain[..k + 1];
    n.content := n.content[..dest];
    ghost var chain := n.chain;
    forall i {:trigger BlockOk(chain, i)} | 0 <= i < |chain|
      ensures BlockOk(chain, i)
    {
      assert old(BlockOk(before, i));
      if i < k {
        assert Apart(before[i], before[k]);
      }
    }
    assert BlocksOk(chain);
    forall i, j {:trigger Apart(chain[i], chain[j])} | 0 <= i < j < |chain|
      ensures Apart(chain[i], chain[j])
    {
      assert Apart(before[i], before[j]);
    }
    forall i, j
      ensures ByteOk(chain, n.content, i, j)
    {
      if 0 <= i < |chain| {
        assert BlockOk(chain, i) && old(BlockOk(before, i)) && old(ByteOk(before, n.content, i, j));
      }
    }
    assert DataOk(chain, n.content);
  }

  /** The same, seen from the handles: those at or before the new end are not disturbed. */
  method CutUnder(gd: GlobalData, n: ObjNode, p: DataBlock, ghost k: nat, ptr: int, dest: int)
    requires FileOk(n) && Holds(n, p, k, ptr, dest) && dest <= |n.content| && CursorsOk(gd.locks, n)
    modifies gd`spaceUsed, p`next, p`size, n`size, n`chain, n`content
    ensures FileOk(n) && n.chain == old(n.chain)[..k + 1] && n.content == old(n.content)[..dest]
    ensures gd.spaceUsed - old(gd.spaceUsed) == |n.chain| - |old(n.chain)|
    ensures forall l :: l in gd.locks && l.key == n && l.cpos <= dest ==> CursorOk(l, n)
  {
    forall l | l in gd.locks && l.key == n && l.cpos <= dest
      ensures CursorAt(n.chain[..k + 1], dest, l.block, l.offset, l.cpos, l.index)
    {
      assert CursorOk(l, n);
      CutKeepsCursor(n, p, k, ptr, dest, l.block, l.offset, l.cpos, l.index);
    }
    Cut(gd, n, p, k, ptr, dest);
  }

  /** Where a shrinking file ends, and the block that holds that end. */
  method ShrinkEnd(gd: GlobalData, lock: RamLock, n: ObjNode, dest0: int, p0: DataBlock, ghost k0: nat, ptr0: int)
    returns (dest: int, p: DataBlock, ptr: int, ghost k: nat)
    requires FileOk(n) && CursorsOk(gd.locks, n) && LockListOk(gd.lockList, gd.locks)
    requires Holds(n, p0, k0, ptr0, dest0) && dest0 <= |n.content|
    ensures Holds(n, p, k, ptr, dest) && dest <= |n.content|
    ensures dest == if dest0 < |n.content| then Furthest(gd.locks, n, lock, dest0) else dest0
    ensures forall l :: l in gd.locks && l.key == n && l != lock ==> l.cpos <= dest
  {
    dest, p, ptr, k := dest0, p0, ptr0, k0;
    if dest < n.size {
      dest, p, ptr, k := FurthestCursor(gd, lock, n, dest, p, k, ptr);
      FurthestBound(gd.locks, |gd.locks|, n, lock, dest0);
    } else {
      assert forall l :: l in gd.locks && l.key == n ==> CursorOk(l, n);
    }
  }

  /** rh_Seek with truncate set, to a position within the file: the file shrinks, but not
      below the position of any other handle. */
  method Shrink(gd: GlobalData, lock: RamLock, n: ObjNode, dest0: int, p0: DataBlock, ghost k0: nat, ptr0: int)
    returns (ghost end: nat)
    requires FileOk(n) && CursorsOk(gd.locks, n) && LockListOk(gd.lockList, gd.locks)
    requires lock in gd.locks && lock.key == n
    requires Holds(n, p0, k0, ptr0, dest0) && dest0 <= |n.content|
    modifies lock`block, lock`offset, lock`cpos, lock`modified, lock`index, gd`spaceUsed, n.chain, n`size, n`chain
    modifies n`content
    ensures FileOk(n) && CursorsOk(gd.locks, n)
    ensures end == if dest0 < |old(n.content)| then old(Furthest(gd.locks, n, lock, dest0)) else dest0
    ensures end <= |old(n.content)| && n.content == old(n.content)[..end]
    ensures n.chain <= old(n.chain) && n.chain != [] && gd.spaceUsed - old(gd.spaceUsed) == |n.chain| - |old(n.chain)|
    ensures lock.cpos == if old(lock.cpos) <= end then old(lock.cpos) else end
  {
    hide FileOk, LockListOk, Furthest;
    var dest, p, ptr;
    ghost var k;
    dest, p, ptr, k := ShrinkEnd(gd, lock, n, dest0, p0, k0, ptr0);
    end := dest;
    CutUnder(gd, n, p, k, ptr, dest);
    lock.modified := true;
    if lock.cpos <= dest {
      return;
    }
    SaveCursor(gd, lock, n, p, dest - ptr + FIRSTBUFFPOS, dest, k);
  }

  /** One rh_Write of zeros at the end of the file. */
  method AppendZeros(gd: GlobalData, lock: RamLock, n: ObjNode, mem: seq<byte>, size: int)
    returns (ok: bool, ghost more: nat)
    requires FileOk(n) && n.chain != [] && lock.key == n && lock in gd.locks && CursorsOk(gd.locks, n)
    requires lock.cpos == |n.content| && 0 < size <= |mem| && mem == Zeros(|mem|)
    modifies lock`block, lock`offset, lock`cpos, lock`modified, lock`index
    modifies n`content, n`chain, n`size, gd`spaceUsed, n.chain, set b | b in n.chain :: b.bytes
    ensures FileOk(n) && CursorsOk(gd.locks, n)
    ensures old(n.chain) <= n.chain && gd.spaceUsed - old(gd.spaceUsed) == |n.chain| - |old(n.chain)|
    ensures forall i :: |old(n.chain)| <= i < |n.chain| ==> fresh(n.chain[i]) && fresh(n.chain[i].bytes)
    ensures n.content == old(n.content) + Zeros(more) && more <= size && lock.cpos >= |old(n.content)|
    ensures if ok then more == size && lock.cpos == |n.content| else !gd.reliable
  {
    var count;
    ghost var bytes;
    count, bytes := Write(gd, lock, n, mem, size);
    ok := count == size;
    more := |bytes|;
    assert bytes == Zeros(more);
    SpliceSlices(old(n.content), |old(n.content)|, bytes);
  }

  /** Puts the cursor behind the last byte. */
  method CursorToEnd(gd: GlobalData, lock: RamLock, n: ObjNode, lastp: DataBlock)
    requires FileOk(n) && CursorsOk(gd.locks, n) && lock.key == n
    requires n.chain != [] && lastp == n.chain[|n.chain| - 1]
    modifies lock`block, lock`offset, lock`cpos, lock`index
    ensures CursorsOk(gd.locks, n) && lock.cpos == |n.content|
  {
    BlockFacts(n, |n.chain| - 1);
    assert BlockOk(n.chain, |n.chain| - 1);
    assert forall l :: l in gd.locks && l.key == n ==> CursorOk(l, n);
    SaveCursor(gd, lock, n, lastp, lastp.size + 1, n.size, |n.chain| - 1);
  }

  /** The loop of zero writes from the end of the file up to `dest`. */
  method GrowLoop(gd: GlobalData, lock: RamLock, n: ObjNode, mem: seq<byte>, ptr0: int, dest: int)
    returns (ok: bool, ghost grown: nat)
    requires FileOk(n) && n.chain != [] && CursorsOk(gd.locks, n) && lock in gd.locks && lock.key == n
    requires lock.cpos == ptr0 == |n.content| < dest && mem == Zeros(4 * DATA_BLOCK_SIZE)
    modifies lock`block, lock`offset, lock`cpos, lock`modified, lock`index
    modifies n`content, n`chain, n`size, gd`spaceUsed, n.chain, set b | b in n.chain :: b.bytes
    ensures FileOk(n) && CursorsOk(gd.locks, n)
    ensures old(n.chain) <= n.chain && gd.spaceUsed - old(gd.spaceUsed) == |n.chain| - |old(n.chain)|
    ensures forall i :: |old(n.chain)| <= i < |n.chain| ==> fresh(n.chain[i]) && fresh(n.chain[i].bytes)
    ensures n.content == old(n.content) + Zeros(grown) && |old(n.content)| <= lock.cpos <= |n.content| <= dest
    ensures if ok then |n.content| == lock.cpos == dest else !gd.reliable
  {
    ghost var content0, chain0 := n.content, n.chain;
    grown, ok := 0, true;
    var ptr := ptr0;
    while ok && ptr < dest
      invariant FileOk(n) && CursorsOk(gd.locks, n)
      invariant chain0 <= n.chain && gd.spaceUsed - old(gd.spaceUsed) == |n.chain| - |chain0|
      invariant forall i :: |chain0| <= i < |n.chain| ==> fresh(n.chain[i]) && fresh(n.chain[i].bytes)
      invariant n.content == content0 + Zeros(grown) && |content0| <= lock.cpos <= |n.content| <= dest
      invariant if ok then ptr == lock.cpos == |n.content| <= dest else !gd.reliable
      decreases if ok then 1 else 0, dest - ptr
    {
      var size := if ptr + 4 * DATA_BLOCK_SIZE < dest then 4 * DATA_BLOCK_SIZE else dest - ptr;
      ghost var more;
      ok, more := AppendZeros(gd, lock, n, mem, size);
      grown := grown + more;
      ptr := ptr + size;
    }
  }

  /** rh_Seek with truncate set, to a position past the end: zeros are written up to it.
      On an allocation failure some of them may have been. */
  method Grow(gd: GlobalData, lock: RamLock, n: ObjNode, lastp: DataBlock, ptr0: int, dest: int)
    returns (ok: bool, ghost grown: nat)
    requires FileOk(n) && CursorsOk(gd.locks, n) && lock in gd.locks && lock.key == n
    requires n.chain != [] && lastp == n.chain[|n.chain| - 1] && ptr0 == |n.content| < dest
    modifies lock`block, lock`offset, lock`cpos, lock`modified, lock`index
    modifies n`content, n`chain, n`size, gd`spaceUsed, n.chain, set b | b in n.chain :: b.bytes
    ensures FileOk(n) && CursorsOk(gd.locks, n)
    ensures old(n.chain) <= n.chain && gd.spaceUsed - old(gd.spaceUsed) == |n.chain| - |old(n.chain)|
    ensures forall i :: |old(n.chain)| <= i < |n.chain| ==> fresh(n.chain[i]) && fresh(n.chain[i].bytes)
    ensures n.content == old(n.content) + Zeros(grown) && |old(n.content)| <= lock.cpos <= |n.content| <= dest
    ensures if ok then |n.content| == lock.cpos == dest else !gd.reliable
  {
    CursorToEnd(gd, lock, n, lastp);
    ok :| gd.reliable ==> ok;  // AllocVec
    if !ok {
      grown := 0;
      return;
    }
    var mem := Zeros(4 * DATA_BLOCK_SIZE);
    ok, grown := GrowLoop(gd, lock, n, mem, ptr0, dest);
  }

  /** rh_Seek once the origin is resolved and the position checked. */
  method SeekTo(gd: GlobalData, lock: RamLock, n: ObjNode, dest: int, truncate: bool) returns (r: int)
    requires FileOk(n) && n.chain != [] && CursorsOk(gd.locks, n) && LockListOk(gd.lockList, gd.locks)
    requires lock in gd.locks && lock.key == n && 0 <= dest && (truncate || dest <= |n.content|)
    modifies lock`block, lock`offset, lock`cpos, lock`modified, lock`index, gd`spaceUsed
    modifies n`content, n`chain, n`size, n.chain, set b | b in n.chain :: b.bytes
    ensures FileOk(n) && n.chain != [] && CursorsOk(gd.locks, n)
    ensures gd.spaceUsed - old(gd.spaceUsed) == |n.chain| - |old(n.chain)|
    ensures forall b :: b in n.chain && b !in old(n.chain) ==> fresh(b) && fresh(b.bytes)
    ensures Moved(dest, truncate, old(lock.cpos), old(n.content), old(Furthest(gd.locks, n, lock, dest)), r, lock.cpos,
                  n.content)
    ensures gd.reliable ==> r != -1
  {
    assert CursorOk(lock, n);
    var p, lastp, ptr;
    ghost var k;
    p, lastp, ptr, k := FindBlock(lock, n, dest);
    if p == null {
      var ok;
      ghost var grown;
      ok, grown := Grow(gd, lock, n, lastp, ptr, dest);
      r := if ok then dest else -1;
    } else if truncate {
      ghost var end := Shrink(gd, lock, n, dest, p, k, ptr);
      r := lock.cpos;
    } else {
      SaveCursor(gd, lock, n, p, dest - ptr + FIRSTBUFFPOS, dest, k);
      r := lock.cpos;
    }
  }

  /** rh_Seek: moves the cursor, or with `truncate` also sets the size of the file. */
  method Seek(gd: GlobalData, lock: RamLock, n: ObjNode, dest0: int, frompos: int, truncate: bool) returns (r: int)
    requires FileOk(n) && n.chain != [] && CursorsOk(gd.locks, n) && LockListOk(gd.lockList, gd.locks)
    requires lock in gd.locks && lock.key == n
    modifies lock`block, lock`offset, lock`cpos, lock`modified, lock`index, gd`spaceUsed, gd`fileErr
    modifies n`content, n`chain, n`size, n.chain, set b | b in n.chain :: b.bytes
    ensures FileOk(n) && n.chain != [] && CursorsOk(gd.locks, n)
    ensures gd.spaceUsed - old(gd.spaceUsed) == |n.chain| - |old(n.chain)|
    ensures forall b :: b in n.chain && b !in old(n.chain) ==> fresh(b) && fresh(b.bytes)
    ensures SeekRefused(dest0, frompos, truncate, old(lock.cpos), |old(n.content)|) ==>
              r == -1 && lock.cpos == old(lock.cpos) && n.content == old(n.content)
    ensures !SeekRefused(dest0, frompos, truncate, old(lock.cpos), |old(n.content)|) ==>
              var dest := SeekTarget(dest0, frompos, old(lock.cpos), |old(n.content)|);
              Moved(dest, truncate, old(lock.cpos), old(n.content), old(Furthest(gd.locks, n, lock, dest)), r,
                    lock.cpos, n.content)
    ensures r == -1 ==>
              gd.fileErr == SeekError
                && (gd.reliable ==> SeekRefused(dest0, frompos, truncate, old(lock.cpos), |old(n.content)|))
  {
    var node := n;
    var count := lock.cpos;
    assert CursorOk(lock, n) && count <= node.size == |n.content|;
    hide FileOk, LockListOk, CursorsOk, Moved, Furthest;
    if !ValidOrigin(frompos) {
      gd.fileErr := SeekError;
      return -1;
    }
    var dest := if frompos == SEEK_CUR then dest0 + count else if frompos == SEEK_END then dest0 + node.size else dest0;
    if dest < 0 || (!truncate && dest > node.size) {
      gd.fileErr := SeekError;
      return -1;
    }
    r := SeekTo(gd, lock, n, dest, truncate);
    if r == -1 {
      gd.fileErr := SeekError;
    }
  }
}
