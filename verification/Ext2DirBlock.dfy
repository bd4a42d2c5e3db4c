/** One block of an ext2 directory: records of variable length that tile the block. */
module Ext2DirBlock {
  import opened Machine
  import opened Ext2Disk

  const HEADER := 8

  /** What a record says: a name and the inode it stands for. */
  datatype Entry = Entry(inode: Word, name: seq<byte>)

  function U16(b: seq<byte>, o: nat): nat
    requires o + 2 <= |b|
  {
    b[o] as nat + 256 * b[o + 1] as nat
  }

  function U32(b: seq<byte>, o: nat): (w: Word)
    requires o + 4 <= |b|
  {
    b[o] as nat + 0x100 * b[o + 1] as nat + 0x1_0000 * b[o + 2] as nat + 0x100_0000 * b[o + 3] as nat
  }

  function Bytes16(x: nat): (b: seq<byte>)
    requires x < 0x1_0000
    ensures |b| == 2 && U16(b, 0) == x
  {
    [(x % 256) as byte, (x / 256) as byte]
  }

  function Bytes32(x: Word): (b: seq<byte>)
    ensures |b| == 4 && U32(b, 0) == x
  {
    var y := x / 256;
    var z := y / 256;
    [(x % 256) as byte, (y % 256) as byte, (z % 256) as byte, (z / 256) as byte]
  }

  /** DirEntrySize: the header and the name, rounded up to a multiple of four. */
  function EntrySize(nameLen: nat): (r: nat)
    ensures r % 4 == 0 && HEADER + nameLen <= r < HEADER + nameLen + 4
  {
    (HEADER + nameLen + 3) / 4 * 4
  }

  function RecLen(b: seq<byte>, o: nat): nat
    requires o + HEADER <= |b|
  {
    U16(b, o + 4)
  }

  function NameLen(b: seq<byte>, o: nat): nat
    requires o + HEADER <= |b|
  {
    b[o + 6] as nat
  }

  /** A record at `o` has room for its name and ends within the block. */
  predicate RecordAt(b: seq<byte>, o: nat) {
    o + HEADER <= |b| && EntrySize(NameLen(b, o)) <= RecLen(b, o) && o + RecLen(b, o) <= |b|
  }

  function EntryAt(b: seq<byte>, o: nat): Entry
    requires RecordAt(b, o)
  {
    Entry(U32(b, o), b[o + HEADER..o + HEADER + NameLen(b, o)])
  }

  /** Records follow one another from `o` to the end of the block. */
  predicate Tiled(b: seq<byte>, o: nat)
    decreases |b| - o
  {
    o == |b| || (RecordAt(b, o) && Tiled(b, o + RecLen(b, o)))
  }

  function Entries(b: seq<byte>, o: nat): seq<Entry>
    requires Tiled(b, o)
    decreases |b| - o
  {
    if o == |b| then [] else [EntryAt(b, o)] + Entries(b, o + RecLen(b, o))
  }

  /** There is a record at `o` on the way from `s`. */
  predicate Reaches(b: seq<byte>, s: nat, o: nat)
    requires Tiled(b, s)
    decreases |b| - s
  {
    s < |b| && (s == o || Reaches(b, s + RecLen(b, s), o))
  }

  lemma {:induction false} ReachedIsRecord(b: seq<byte>, s: nat, o: nat)
    requires Tiled(b, s) && Reaches(b, s, o)
    ensures s <= o < |b| && Tiled(b, o) && RecordAt(b, o)
    decreases |b| - s
  {
    if s != o {
      ReachedIsRecord(b, s + RecLen(b, s), o);
    }
  }

  /** From one record to the next. */
  lemma RecordStep(b: seq<byte>, o: nat)
    requires Tiled(b, o) && o != |b|
    ensures RecordAt(b, o) && RecLen(b, o) > 0 && Tiled(b, o + RecLen(b, o)) && o + RecLen(b, o) <= |b|
    ensures Entries(b, o) == [EntryAt(b, o)] + Entries(b, o + RecLen(b, o))
  {
  }

  /** The bytes of a record: the inode in the first four, the lowest first; the record length in the
      next two; the length of the name; the type; and the name. */
  lemma FieldsAre(b: seq<byte>, o: nat)
    requires o + 8 <= |b|
    ensures RecLen(b, o) == b[o + 4] as nat + 256 * b[o + 5] as nat && NameLen(b, o) == b[o + 6] as nat
    ensures RecordAt(b, o) <==>
              && o + RecLen(b, o) <= |b|
              && (8 + b[o + 6] as nat + 3) / 4 * 4 <= b[o + 4] as nat + 256 * b[o + 5] as nat
    ensures RecordAt(b, o) ==>
              && EntryAt(b, o).name == b[o + 8..o + 8 + b[o + 6] as nat]
              && EntryAt(b, o).inode ==
                b[o] as nat + 0x100 * b[o + 1] as nat + 0x1_0000 * b[o + 2] as nat + 0x100_0000 * b[o + 3] as nat
  {
  }

  // ---------------------------------------------------------------- FillDirEntry

  /** The bytes that FillDirEntry makes, with the record length `recLen`. */
  function RecordBytes(e: Entry, recLen: nat): (r: seq<byte>)
    requires |e.name| < 256 && recLen < 0x1_0000
    ensures |r| == EntrySize(|e.name|)
  {
    Bytes32(e.inode) + Bytes16(recLen) + [|e.name| as byte, 0] + e.name
    + seq(EntrySize(|e.name|) - HEADER - |e.name|, _ => 0)
  }

  /** The record at `o` reads back as the entry it was made from, if its length fits. */
  lemma RecordReadsBack(b: seq<byte>, o: nat, e: Entry, recLen: nat)
    requires |e.name| < 256 && recLen < 0x1_0000 && EntrySize(|e.name|) <= recLen && o + recLen <= |b|
    requires b[o..o + EntrySize(|e.name|)] == RecordBytes(e, recLen)
    ensures RecordAt(b, o) && RecLen(b, o) == recLen && EntryAt(b, o) == e
  {
    hide EntrySize, Bytes32, Bytes16;
    var r := RecordBytes(e, recLen);
    assert forall k :: 0 <= k < |r| ==> b[o + k] == r[k];
    assert r[4..6] == Bytes16(recLen) && r[..4] == Bytes32(e.inode) && r[6] == |e.name| as byte;
    assert r[4] == Bytes16(recLen)[0] && r[5] == Bytes16(recLen)[1];
    assert forall k :: 0 <= k < 4 ==> r[k] == Bytes32(e.inode)[k];
    assert forall k :: 0 <= k < |e.name| ==> b[o + (HEADER + k)] == r[HEADER + k] == e.name[k];
    assert b[o + HEADER..o + HEADER + |e.name|] == e.name;
  }

  /** Its type is 0, as are the bytes behind the name. */
  lemma RestIsZero(e: Entry, recLen: nat, k: nat)
    requires |e.name| < 256 && recLen < 0x1_0000 && k < |RecordBytes(e, recLen)|
    ensures k == 7 || k >= 8 + |e.name| ==> RecordBytes(e, recLen)[k] == 0
  {
    hide EntrySize;
  }

  // ---------------------------------------------------------------- changing a block

  predicate Agree(b: seq<byte>, c: seq<byte>, from: nat, to: nat) {
    |b| == |c| && forall k :: from <= k < to && k < |b| ==> b[k] == c[k]
  }

  /** Bytes that agree from `o` on hold the same records. */
  lemma {:induction false} SameFrom(b: seq<byte>, c: seq<byte>, o: nat)
    requires Agree(b, c, o, |b|) && Tiled(b, o)
    ensures Tiled(c, o) && Entries(c, o) == Entries(b, o)
    decreases |b| - o
  {
    if o < |b| {
      SameRecord(b, c, o);
      SameFrom(b, c, o + RecLen(b, o));
    }
  }

  lemma SameRecord(b: seq<byte>, c: seq<byte>, o: nat)
    requires RecordAt(b, o) && Agree(b, c, o, o + RecLen(b, o))
    ensures RecordAt(c, o) && RecLen(c, o) == RecLen(b, o) && EntryAt(c, o) == EntryAt(b, o)
  {
    assert b[o + HEADER..o + HEADER + NameLen(b, o)] == c[o + HEADER..o + HEADER + NameLen(b, o)];
  }

  function Put(b: seq<byte>, o: nat, bytes: seq<byte>): (r: seq<byte>)
    requires o + |bytes| <= |b|
    ensures |r| == |b| && forall k :: 0 <= k < |r| ==> r[k] == if o <= k < o + |bytes| then bytes[k - o] else b[k]
    ensures r[o..o + |bytes|] == bytes
  {
    b[..o] + bytes + b[o + |bytes|..]
  }

  /** There is room behind the name of the record at `o` for a record of `need` bytes. */
  predicate HasRoom(b: seq<byte>, o: nat, need: nat) {
    RecordAt(b, o) && RecLen(b, o) - EntrySize(NameLen(b, o)) >= need
  }

  /** AddDirEntry within a block: the record at `o` is cut to its name, and the rest of its
      room becomes the new record. */
  function Insert(b: seq<byte>, o: nat, e: Entry): (r: seq<byte>)
    requires |e.name| < 256 && HasRoom(b, o, EntrySize(|e.name|)) && |b| < 0x1_0000
    ensures |r| == |b|
  {
    var size := EntrySize(NameLen(b, o));
    Put(Put(b, o + size, RecordBytes(e, RecLen(b, o) - size)), o + 4, Bytes16(size))
  }

  /** Exactly the one entry is new. */
  ghost predicate OneMore(before: seq<Entry>, e: Entry, after: seq<Entry>) {
    exists k :: 0 <= k <= |before| && after == before[..k] + [e] + before[k..]
  }

  lemma ShortenedRecord(b: seq<byte>, o: nat, e: Entry)
    requires |e.name| < 256 && HasRoom(b, o, EntrySize(|e.name|)) && |b| < 0x1_0000
    ensures RecordAt(Insert(b, o, e), o) && RecLen(Insert(b, o, e), o) == EntrySize(NameLen(b, o))
    ensures EntryAt(Insert(b, o, e), o) == EntryAt(b, o)
  {
    var size := EntrySize(NameLen(b, o));
    var c := Insert(b, o, e);
    assert c[o + 4] == Bytes16(size)[0] && c[o + 5] == Bytes16(size)[1];
    assert b[o + HEADER..o + HEADER + NameLen(b, o)] == c[o + HEADER..o + HEADER + NameLen(b, o)];
  }

  lemma PutElsewhere(b: seq<byte>, o: nat, bytes: seq<byte>, i: nat, j: nat)
    requires o + |bytes| <= |b| && i <= j <= |b| && (j <= o || o + |bytes| <= i)
    ensures Put(b, o, bytes)[i..j] == b[i..j]
  {
  }

  lemma RecordAfterPuts(b: seq<byte>, q: nat, e: Entry, recLen: nat, at: nat, bytes: seq<byte>)
    requires |e.name| < 256 && recLen < 0x1_0000 && EntrySize(|e.name|) <= recLen && q + recLen <= |b|
    requires at + |bytes| <= q
    ensures var c := Put(Put(b, q, RecordBytes(e, recLen)), at, bytes);
            RecordAt(c, q) && EntryAt(c, q) == e && RecLen(c, q) == recLen
  {
    var r := RecordBytes(e, recLen);
    PutElsewhere(Put(b, q, r), at, bytes, q, q + |r|);
    RecordReadsBack(Put(Put(b, q, r), at, bytes), q, e, recLen);
  }

  lemma NewRecord(b: seq<byte>, o: nat, e: Entry)
    requires |e.name| < 256 && HasRoom(b, o, EntrySize(|e.name|)) && |b| < 0x1_0000
    ensures var c, q := Insert(b, o, e), o + EntrySize(NameLen(b, o));
            RecordAt(c, q) && EntryAt(c, q) == e && q + RecLen(c, q) == o + RecLen(b, o)
  {
    hide EntryAt, U32, RecordBytes, Bytes16;
    var size := EntrySize(NameLen(b, o));
    RecordAfterPuts(b, o + size, e, RecLen(b, o) - size, o + 4, Bytes16(size));
  }

  lemma InsertElsewhere(b: seq<byte>, o: nat, e: Entry)
    requires |e.name| < 256 && HasRoom(b, o, EntrySize(|e.name|)) && |b| < 0x1_0000
    ensures Agree(b, Insert(b, o, e), 0, o) && Agree(b, Insert(b, o, e), o + RecLen(b, o), |b|)
  {
  }

  /** In `c` the record at `o` is split in two. */
  ghost predicate SplitAt(b: seq<byte>, o: nat, e: Entry, c: seq<byte>) {
    && |c| == |b| && RecordAt(b, o) && RecordAt(c, o) && EntryAt(c, o) == EntryAt(b, o)
    && RecLen(c, o) == (8 + NameLen(b, o) + 3) / 4 * 4
    && var q := o + RecLen(c, o);
    && RecordAt(c, q) && EntryAt(c, q) == e && q + RecLen(c, q) == o + RecLen(b, o)
    && Agree(b, c, 0, o) && Agree(b, c, o + RecLen(b, o), |b|)
  }

  lemma InsertSplits(b: seq<byte>, o: nat, e: Entry)
    requires |e.name| < 256 && HasRoom(b, o, EntrySize(|e.name|)) && |b| < 0x1_0000
    ensures SplitAt(b, o, e, Insert(b, o, e))
  {
    hide EntryAt, U16, U32, NameLen, Bytes16;
    ShortenedRecord(b, o, e);
    NewRecord(b, o, e);
    InsertElsewhere(b, o, e);
  }

  lemma OneRecord(c: seq<byte>, o: nat)
    requires RecordAt(c, o) && Tiled(c, o + RecLen(c, o))
    ensures Tiled(c, o) && Entries(c, o) == [EntryAt(c, o)] + Entries(c, o + RecLen(c, o))
  {
  }

  lemma SplitHere(b: seq<byte>, o: nat, e: Entry, c: seq<byte>)
    requires Tiled(b, o) && o < |b| && SplitAt(b, o, e, c)
    ensures Tiled(c, o) && Entries(c, o) == [EntryAt(b, o), e] + Entries(b, o + RecLen(b, o))
  {
    hide EntryAt, U16, U32, EntrySize;
    var q, n := o + RecLen(c, o), o + RecLen(b, o);
    SameFrom(b, c, n);
    OneRecord(c, q);
    OneRecord(c, o);
  }

  /** The block stays tiled, one entry is new, and all others are kept in order. */
  lemma {:induction false} SplitOnTheWay(b: seq<byte>, s: nat, o: nat, e: Entry, c: seq<byte>)
    requires Tiled(b, s) && Reaches(b, s, o) && SplitAt(b, o, e, c)
    ensures Tiled(c, s) && OneMore(Entries(b, s), e, Entries(c, s))
    decreases |b| - s
  {
    hide EntryAt, U16, U32, EntrySize;
    ReachedIsRecord(b, s, o);
    if s == o {
      SplitHere(b, o, e, c);
      assert Entries(c, s) == Entries(b, s)[..1] + [e] + Entries(b, s)[1..];
    } else {
      var n := s + RecLen(b, s);
      SplitOnTheWay(b, n, o, e, c);
      ReachedIsRecord(b, n, o);
      SameRecord(b, c, s);
      OneMoreBehind(EntryAt(b, s), Entries(b, n), e, Entries(c, n));
    }
  }

  lemma OneMoreBehind(first: Entry, before: seq<Entry>, e: Entry, after: seq<Entry>)
    requires OneMore(before, e, after)
    ensures OneMore([first] + before, e, [first] + after)
  {
    var k :| 0 <= k <= |before| && after == before[..k] + [e] + before[k..];
    var more := [first] + before;
    assert more[..k + 1] == [first] + before[..k] && more[k + 1..] == before[k..];
    assert [first] + after == more[..k + 1] + [e] + more[k + 1..];
  }

  /** The first record from `s` on that has room, or -1. */
  function FirstRoom(b: seq<byte>, s: nat, need: nat): (o: int)
    requires Tiled(b, s)
    ensures o >= -1
    decreases |b| - s
  {
    if s == |b| then -1
    else if HasRoom(b, s, need) then s
    else FirstRoom(b, s + RecLen(b, s), need)
  }

  lemma {:induction false} FirstRoomIsReached(b: seq<byte>, s: nat, need: nat)
    requires Tiled(b, s) && FirstRoom(b, s, need) != -1
    ensures Reaches(b, s, FirstRoom(b, s, need)) && HasRoom(b, FirstRoom(b, s, need), need)
    decreases |b| - s
  {
    if !HasRoom(b, s, need) {
      FirstRoomIsReached(b, s + RecLen(b, s), need);
    }
  }

  /** No record before it has room for `need` bytes behind its own, and none at all when it is -1. */
  lemma {:induction false} FirstRoomIsFirst(b: seq<byte>, s: nat, need: nat, o: nat)
    requires Tiled(b, s) && Reaches(b, s, o) && RecordAt(b, o)
    requires RecLen(b, o) >= (8 + NameLen(b, o) + 3) / 4 * 4 + need
    ensures s <= FirstRoom(b, s, need) <= o
    decreases |b| - s
  {
    ReachedIsRecord(b, s, o);
    if s != o && !HasRoom(b, s, need) {
      FirstRoomIsFirst(b, s + RecLen(b, s), need, o);
    }
  }

  /** The inner loop of AddDirEntry. */
  method FindRoom(b: seq<byte>, need: nat) returns (o: int)
    requires Tiled(b, 0)
    ensures o == FirstRoom(b, 0, need)
  {
    o := 0;
    while o < |b|
      invariant 0 <= o <= |b| && Tiled(b, o) && FirstRoom(b, o, need) == FirstRoom(b, 0, need)
      decreases |b| - o
    {
      var size := EntrySize(NameLen(b, o));
      if RecLen(b, o) - size >= need {
        return;
      }
      o := o + RecLen(b, o);
    }
    o := -1;
  }
}
