/** What the file operations mean: a file is a byte sequence, a handle a position in it. */
module RamFileSpec {
  import opened Machine
  import opened RamTypes

  /** How many of `size` bytes a read at `pos` of a file of `length` bytes delivers. */
  function ReadCount(length: nat, pos: nat, size: int): (count: nat)
    requires pos <= length
    ensures pos + count <= length && (size <= 0 ==> count == 0)
    ensures size > 0 ==> count <= size && (count < size ==> pos + count == length)
  {
    if size <= 0 then 0 else if size <= length - pos then size else length - pos
  }

  /** Byte `i` of `content` once `bytes` has been written at `pos`. */
  function SplicedByte(content: seq<byte>, pos: nat, bytes: seq<byte>, i: nat): byte
    requires pos <= |content| && (i < |content| || i < pos + |bytes|)
  {
    if pos <= i < pos + |bytes| then bytes[i - pos] else content[i]
  }

  /** `content` with `bytes` written at `pos`: an overwrite, an append, or both. */
  function Splice(content: seq<byte>, pos: nat, bytes: seq<byte>): (r: seq<byte>)
    requires pos <= |content|
    ensures |r| == if pos + |bytes| <= |content| then |content| else pos + |bytes|
  {
    seq(if pos + |bytes| <= |content| then |content| else pos + |bytes|,
        i requires 0 <= i < |content| || 0 <= i < pos + |bytes| => SplicedByte(content, pos, bytes, i))
  }

  /** A splice in terms of slices. */
  lemma SpliceSlices(content: seq<byte>, pos: nat, bytes: seq<byte>)
    requires pos <= |content|
    ensures pos + |bytes| <= |content| ==>
              Splice(content, pos, bytes) == content[..pos] + bytes + content[pos + |bytes|..]
    ensures pos + |bytes| > |content| ==> Splice(content, pos, bytes) == content[..pos] + bytes
  {
  }

  lemma SpliceIndex(content: seq<byte>, pos: nat, bytes: seq<byte>, i: nat)
    requires pos <= |content| && i < |Splice(content, pos, bytes)|
    ensures pos <= i < pos + |bytes| ==> Splice(content, pos, bytes)[i] == bytes[i - pos]
    ensures !(pos <= i < pos + |bytes|) ==> i < |content| && Splice(content, pos, bytes)[i] == content[i]
  {
  }

  /** Writing on where the last write ended is one write of both. */
  lemma SpliceOn(content: seq<byte>, pos: nat, one: seq<byte>, two: seq<byte>)
    requires pos <= |content|
    ensures Splice(Splice(content, pos, one), pos + |one|, two) == Splice(content, pos, one + two)
  {
    var l, r := Splice(Splice(content, pos, one), pos + |one|, two), Splice(content, pos, one + two);
    forall i | 0 <= i < |l|
      ensures l[i] == r[i]
    {
      SpliceIndex(Splice(content, pos, one), pos + |one|, two, i);
      SpliceIndex(content, pos, one + two, i);
      if i < |Splice(content, pos, one)| {
        SpliceIndex(content, pos, one, i);
      }
    }
  }

  function Zeros(n: nat): (z: seq<byte>)
    ensures |z| == n && forall i :: 0 <= i < n ==> z[i] == 0
  {
    seq(n, _ => 0)
  }

  predicate ValidOrigin(frompos: int) {
    frompos == SEEK_SET || frompos == SEEK_CUR || frompos == SEEK_END
  }

  /** The position a seek asks for; it may lie outside the file. */
  function SeekTarget(dest: int, frompos: int, pos: nat, length: nat): int
    requires ValidOrigin(frompos)
  {
    if frompos == SEEK_CUR then dest + pos else if frompos == SEEK_END then dest + length else dest
  }

  /** A seek to outside the file is refused, except that truncation may go past the end. */
  predicate SeekRefused(dest: int, frompos: int, truncate: bool, pos: nat, length: nat) {
    || !ValidOrigin(frompos)
    || SeekTarget(dest, frompos, pos, length) < 0
    || (!truncate && SeekTarget(dest, frompos, pos, length) > length)
  }

  /** The three origins are 0 for the start of the file, 1 for the position and 2 for the end; a target
      outside the file is refused, or only one before its start when the size is to be set. */
  lemma SeekIs(dest: int, pos: nat, length: nat)
    ensures SeekTarget(dest, 0, pos, length) == dest
    ensures SeekTarget(dest, 1, pos, length) == pos + dest
    ensures SeekTarget(dest, 2, pos, length) == length + dest
    ensures forall frompos, truncate :: SeekRefused(dest, frompos, truncate, pos, length) <==>
              match frompos
              case 0 => dest < 0 || (!truncate && length < dest)
              case 1 => pos + dest < 0 || (!truncate && length < pos + dest)
              case 2 => length + dest < 0 || (!truncate && 0 < dest)
              case _ => true
  {
  }

  /** What moving from `pos` to `dest` in a file of `content` leaves: `r` is the result, `pos'`
      the new position and `content'` the new content. `furthest` is `dest`, or the position
      of the furthest other handle if that is larger. */
  ghost predicate Moved(dest: int, truncate: bool, pos: nat, content: seq<byte>, furthest: int,
                        r: int, pos': int, content': seq<byte>)
  {
    if !truncate then
      r == pos' == dest && content' == content
    else if dest > |content| then
      if r == -1 then
        && |content| <= pos' <= |content'|
        && exists grown: nat :: |content| + grown <= dest && content' == content + Zeros(grown)
      else
        r == pos' == dest && content' == content + Zeros(dest - |content|)
    else
      var end := if dest < |content| then furthest else dest;
      && 0 <= end <= |content|
      && content' == content[..end]
      && r == pos' == if pos <= end then pos else end
  }

  // ---------------------------------------------------------------- whole runs

  /** A file with the positions of the handles open on it. */
  datatype FileState = FileState(content: seq<byte>, cursors: map<RamLock, int>)
  {
    /** No handle points behind the end of the file. */
    ghost predicate Ok() {
      forall h :: h in cursors ==> 0 <= cursors[h] <= |content|
    }
  }

  datatype Op =
    | OpenFile(handle: RamLock)
    | CloseFile(handle: RamLock)
    | ReadFile(handle: RamLock, size: int, out: seq<byte>)
    | WriteFile(handle: RamLock, bytes: seq<byte>)
    | WriteFailed(handle: RamLock, bytes: seq<byte>)
    | SeekFile(handle: RamLock, dest: int, truncate: bool, result: int)

  /** The state of file `n`, as its node and the lock table hold it. */
  ghost function StateOf(locks: seq<RamLock>, n: ObjNode): FileState
    reads n`content, locks`cpos
  {
    FileState(n.content, map l | l in locks && l.key == n :: l.cpos)
  }

  /** `furthest` is the largest of `dest` and the positions of the handles other than `h`. */
  ghost predicate IsFurthest(cursors: map<RamLock, int>, h: RamLock, dest: int, furthest: int) {
    && furthest >= dest
    && (forall g :: g in cursors && g != h ==> cursors[g] <= furthest)
    && (furthest == dest || exists g :: g in cursors && g != h && cursors[g] == furthest)
  }

  /** The handle is open, and points into the file. */
  ghost predicate Open(f: FileState, h: RamLock) {
    h in f.cursors && 0 <= f.cursors[h] <= |f.content|
  }

  /** The effect of one operation; module RamHandles shows that its methods make such steps. */
  ghost predicate Step(f: FileState, op: Op, f': FileState) {
    match op
    case OpenFile(h) =>
      h !in f.cursors && f' == f.(cursors := f.cursors[h := 0])
    case CloseFile(h) =>
      h in f.cursors && f' == f.(cursors := f.cursors - {h})
    case ReadFile(h, size, out) =>
      && Open(f, h)
      && var count := ReadCount(|f.content|, f.cursors[h], size);
      && out == f.content[f.cursors[h]..f.cursors[h] + count]
      && f' == f.(cursors := f.cursors[h := f.cursors[h] + count])
    case WriteFile(h, bytes) =>
      && Open(f, h)
      && f' == FileState(Splice(f.content, f.cursors[h], bytes), f.cursors[h := f.cursors[h] + |bytes|])
    case WriteFailed(h, bytes) =>
      && Open(f, h)
      && f' == f.(content := Splice(f.content, f.cursors[h], bytes))
    case SeekFile(h, dest, truncate, result) =>
      && Open(f, h) && 0 <= dest && (truncate || dest <= |f.content|)
      && h in f'.cursors && f'.cursors == f.cursors[h := f'.cursors[h]]
      && exists furthest ::
           && IsFurthest(f.cursors, h, dest, furthest)
           && Moved(dest, truncate, f.cursors[h], f.content, furthest, result, f'.cursors[h], f'.content)
  }

  ghost predicate IsRun(fs: seq<FileState>, ops: seq<Op>) {
    |fs| == |ops| + 1 && forall i :: 0 <= i < |ops| ==> Step(fs[i], ops[i], fs[i + 1])
  }

  lemma StepKeepsOk(f: FileState, op: Op, f': FileState)
    requires f.Ok() && Step(f, op, f')
    ensures f'.Ok()
  {
    if op.SeekFile? {
      var h, pos, pos' := op.handle, f.cursors[op.handle], f'.cursors[op.handle];
      var furthest :|
        && IsFurthest(f.cursors, h, op.dest, furthest)
        && Moved(op.dest, op.truncate, pos, f.content, furthest, op.result, pos', f'.content);
    }
  }

  /** Over any run no handle is ever left pointing at bytes that are gone. */
  lemma {:induction false} RunKeepsOk(fs: seq<FileState>, ops: seq<Op>, i: nat)
    requires IsRun(fs, ops) && fs[0].Ok() && i <= |ops|
    ensures fs[i].Ok()
  {
    if i > 0 {
      RunKeepsOk(fs, ops, i - 1);
      StepKeepsOk(fs[i - 1], ops[i - 1], fs[i]);
    }
  }

  /** A handle keeps its position, and unless another one writes there the bytes before it,
      whatever the other handles do. */
  lemma OthersUndisturbed(f: FileState, op: Op, f': FileState, g: RamLock)
    requires f.Ok() && Step(f, op, f') && g in f.cursors && g != op.handle
    ensures g in f'.cursors && f'.cursors[g] == f.cursors[g] <= |f'.content|
    ensures !op.WriteFile? && !op.WriteFailed? ==> f'.content[..f.cursors[g]] == f.content[..f.cursors[g]]
    ensures (op.WriteFile? || op.WriteFailed?) && f.cursors[g] <= f.cursors[op.handle] ==>
              f'.content[..f.cursors[g]] == f.content[..f.cursors[g]]
  {
    if op.SeekFile? {
      var h, pos, pos' := op.handle, f.cursors[op.handle], f'.cursors[op.handle];
      var furthest :|
        && IsFurthest(f.cursors, h, op.dest, furthest)
        && Moved(op.dest, op.truncate, pos, f.content, furthest, op.result, pos', f'.content);
    } else if op.WriteFile? || op.WriteFailed? {
      SpliceSlices(f.content, f.cursors[op.handle], op.bytes);
    }
  }

  /** Reading back what was written gives the bytes written. */
  lemma ReadAfterWrite(f0: FileState, h: RamLock, bytes: seq<byte>, f1: FileState, result: int, f2: FileState,
                       out: seq<byte>, f3: FileState)
    requires f0.Ok() && Step(f0, WriteFile(h, bytes), f1)
    requires Step(f1, SeekFile(h, f0.cursors[h], false, result), f2)
    requires Step(f2, ReadFile(h, |bytes|, out), f3)
    ensures out == bytes && f3 == f1
  {
    var furthest :|
      && IsFurthest(f1.cursors, h, f0.cursors[h], furthest)
      && Moved(f0.cursors[h], false, f1.cursors[h], f1.content, furthest, result, f2.cursors[h], f2.content);
    SpliceSlices(f0.content, f0.cursors[h], bytes);
    assert f3.cursors == f1.cursors;
  }

  /** Two reads in a row deliver what one read of both sizes delivers. */
  lemma ReadsCompose(f0: FileState, h: RamLock, a: nat, b: nat, out1: seq<byte>, f1: FileState, out2: seq<byte>,
                     f2: FileState)
    requires f0.Ok() && Step(f0, ReadFile(h, a, out1), f1) && Step(f1, ReadFile(h, b, out2), f2)
    ensures Step(f0, ReadFile(h, a + b, out1 + out2), f2)
  {
    assert f2.cursors == f0.cursors[h := f2.cursors[h]];
  }

  /** Cutting a file down to nothing and writing it anew leaves just the new bytes, unless another
      handle holds on to some of the old ones. */
  lemma TruncateThenWrite(f0: FileState, h: RamLock, result: int, f1: FileState, bytes: seq<byte>, f2: FileState)
    requires f0.Ok() && Step(f0, SeekFile(h, 0, true, result), f1) && Step(f1, WriteFile(h, bytes), f2)
    requires forall g :: g in f0.cursors && g != h ==> f0.cursors[g] == 0
    ensures f2.content == bytes
  {
    var furthest :|
      && IsFurthest(f0.cursors, h, 0, furthest)
      && Moved(0, true, f0.cursors[h], f0.content, furthest, result, f1.cursors[h], f1.content);
    SpliceSlices(f1.content, f1.cursors[h], bytes);
  }
}
