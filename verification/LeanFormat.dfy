/** The bitmap part of the LEAN formatter: setBitmap and Make. */
module LeanFormat {
  import opened Machine
  import opened Arithmetic
  import opened Bits
  import opened LeanBitmap

  /** The bitmap sectors of sectors `begin` to `end` exist on the disk. */
  ghost predicate Reachable(g: Layout, disk: Disk, begin: nat, end: nat)
    requires g.Ok()
  {
    forall s: nat {:trigger BitmapSector(g, s)} :: begin <= s < end ==>
      BitmapSector(g, s) in disk && |disk[BitmapSector(g, s)]| == SECTORSIZE
  }

  /** The globals of the formatter. */
  class Formatter {
    var layout: Layout
    var logSectorsPerBand: nat
    var sectorCount: nat
    var freeSectorCount: int
    var disk: Disk
    const buffer: array<byte>

    constructor (disk: Disk)
      ensures this.disk == disk && fresh(buffer) && buffer.Length == SECTORSIZE
    {
      this.disk := disk;
      layout, logSectorsPerBand, sectorCount, freeSectorCount := Layout(0, 0, 0), 0, 0, 0;
      buffer := new byte[SECTORSIZE];
    }

    /** The innermost loop body of setBitmap. */
    method MarkOne(bitmapSector: nat, bitOfSector: nat, ghost sector: nat, ghost end: nat, ghost before: Disk,
                   ghost begin: nat)
      requires layout.Ok() && buffer.Length == SECTORSIZE && begin <= sector < end
      requires bitmapSector == BitmapSector(layout, sector) && bitOfSector == BitOfSector(layout, sector)
      requires Marked(layout, before, begin, sector, disk) && Reachable(layout, disk, begin, end)
      requires buffer[..] == disk[bitmapSector]
      modifies this`disk, this`freeSectorCount, buffer
      ensures Marked(layout, before, begin, sector + 1, disk) && Reachable(layout, disk, begin, end)
      ensures buffer[..] == disk[bitmapSector] && freeSectorCount == old(freeSectorCount) - 1
    {
      MarkedMore(layout, before, begin, sector, disk);
      var k := bitOfSector / 8;
      ByteFits(buffer[k], bitOfSector % 8);
      buffer[k] := WithBit(buffer[k] as nat, bitOfSector % 8, true) as byte;
      assert buffer[..] == OrBit(disk[bitmapSector], bitOfSector);
      disk := disk[bitmapSector := buffer[..]];
      freeSectorCount := freeSectorCount - 1;
    }

    /** The innermost loop of setBitmap: the bits of one bitmap sector. */
    method MarkInSector(bitmapSector: nat, sector0: nat, end: nat, ghost before: Disk, ghost begin: nat)
      returns (sector: nat)
      requires layout.Ok() && buffer.Length == SECTORSIZE && begin <= sector0 < end
      requires bitmapSector == BitmapSector(layout, sector0)
      requires Marked(layout, before, begin, sector0, disk) && Reachable(layout, disk, begin, end)
      requires buffer[..] == disk[bitmapSector]
      modifies this`disk, this`freeSectorCount, buffer
      ensures Marked(layout, before, begin, sector, disk) && Reachable(layout, disk, begin, end)
      ensures sector == if sector0 + (4096 - BitOfSector(layout, sector0)) < end
                then sector0 + (4096 - BitOfSector(layout, sector0)) else end
      ensures freeSectorCount == old(freeSectorCount) - (sector - sector0)
    {
      sector := sector0;
      var bitOfSector := BitOfSector(layout, sector0);
      while bitOfSector < SECTORSIZE * 8 && sector < end
        invariant sector0 <= sector <= end && sector - sector0 == bitOfSector - BitOfSector(layout, sector0)
        invariant bitOfSector <= 4096
        invariant freeSectorCount == old(freeSectorCount) - (sector - sector0)
        invariant Marked(layout, before, begin, sector, disk) && Reachable(layout, disk, begin, end)
        invariant bitmapSector in disk && buffer[..] == disk[bitmapSector]
      {
        SameBitmapSector(layout, sector0, sector - sector0);
        MarkOne(bitmapSector, bitOfSector, sector, end, before, begin);
        bitOfSector, sector := bitOfSector + 1, sector + 1;
      }
    }

    /** The middle loop of setBitmap: the bits of one band. */
    method MarkInBand(band: nat, sector0: nat, end: nat, ghost before: Disk, ghost begin: nat) returns (sector: nat)
      requires layout.Ok() && buffer.Length == SECTORSIZE && begin <= sector0 < end
      requires band == Quotient(sector0, layout.sectorsPerBand)
      requires Marked(layout, before, begin, sector0, disk) && Reachable(layout, disk, begin, end)
      modifies this`disk, this`freeSectorCount, buffer
      ensures Marked(layout, before, begin, sector, disk) && Reachable(layout, disk, begin, end)
      ensures sector0 < sector <= end && (sector < end ==> sector == Times(layout.sectorsPerBand, band + 1))
      ensures freeSectorCount == old(freeSectorCount) - (sector - sector0)
    {
      var bitmapBegin := BitmapBegin(layout, band);
      var bitmapEnd := bitmapBegin + layout.bitmapSize;
      var bitmapSector := bitmapBegin + Rest(sector0, layout.sectorsPerBand) / 4096;
      sector := sector0;
      BitmapSectorAt(layout, sector0);
      while bitmapSector < bitmapEnd && sector < end
        invariant sector0 <= sector <= end && bitmapSector <= bitmapEnd
        invariant sector == sector0 ==> bitmapSector < bitmapEnd
        invariant sector < end ==>
                    if bitmapSector < bitmapEnd then Quotient(sector, layout.sectorsPerBand) == band
                      && bitmapSector == BitmapSector(layout, sector)
                    else sector == Times(layout.sectorsPerBand, band + 1)
        invariant freeSectorCount == old(freeSectorCount) - (sector - sector0)
        invariant Marked(layout, before, begin, sector, disk) && Reachable(layout, disk, begin, end)
        decreases bitmapEnd - bitmapSector
      {
        NextBitmapSector(layout, sector);
        ReadSector(bitmapSector);
        sector := MarkInSector(bitmapSector, sector, end, before, begin);
        bitmapSector := bitmapSector + 1;
      }
    }

    method ReadSector(n: nat)
      requires n in disk && |disk[n]| == buffer.Length
      modifies buffer
      ensures buffer[..] == disk[n]
    {
      forall i | 0 <= i < buffer.Length {
        buffer[i] := disk[n][i];
      }
    }

    /** setBitmap: exactly the bits of sectors `begin` to `end` - 1 are set, and the free count
        goes down by their number. */
    method SetBitmap(begin: nat, end: nat)
      requires layout.Ok() && buffer.Length == SECTORSIZE && Reachable(layout, disk, begin, end)
      modifies this`disk, this`freeSectorCount, buffer
      ensures Marked(layout, old(disk), begin, if begin < end then end else begin, disk)
      ensures freeSectorCount == old(freeSectorCount) - (if begin < end then end - begin else 0)
    {
      var sector := begin;
      var band := Quotient(begin, layout.sectorsPerBand);
      ghost var before := disk;
      while sector < end
        invariant begin <= sector && if begin <= end then sector <= end else sector == begin
        invariant sector < end ==> band == Quotient(sector, layout.sectorsPerBand)
        invariant freeSectorCount == old(freeSectorCount) - (sector - begin)
        invariant Marked(layout, before, begin, sector, disk) && Reachable(layout, disk, begin, end)
        decreases end - sector
      {
        sector := MarkInBand(band, sector, end, before, begin);
        RestAt(band + 1, 0, layout.sectorsPerBand);
        band := band + 1;
      }
    }

    /** WriteSector */
    method WriteSector(n: nat, data: seq<byte>)
      requires |data| == SECTORSIZE
      modifies this`disk
      ensures disk == old(disk)[n := data]
    {
      disk := disk[n := data];
    }

    /** The first part of the loop of Make: the bitmap of a band is written with zeros. */
    method ClearBand(begin: nat)
      modifies this`disk
      ensures forall n :: begin <= n < begin + layout.bitmapSize ==> n in disk && disk[n] == seq(SECTORSIZE, _ => 0)
      ensures forall n :: !(begin <= n < begin + layout.bitmapSize) ==>
                (n in disk <==> n in old(disk)) && (n in disk ==> disk[n] == old(disk)[n])
    {
      var i := 0;
      while i != layout.bitmapSize
        invariant 0 <= i <= layout.bitmapSize
        invariant forall n :: begin <= n < begin + i ==> n in disk && disk[n] == seq(SECTORSIZE, _ => 0)
        invariant forall n :: !(begin <= n < begin + i) ==>
                    (n in disk <==> n in old(disk)) && (n in disk ==> disk[n] == old(disk)[n])
      {
        WriteSector(begin + i, seq(SECTORSIZE, _ => 0));
        i := i + 1;
      }
    }

    /** The body of the loop of Make. */
    method MakeBand(band: nat)
      requires layout.Ok() && buffer.Length == SECTORSIZE && BandsMade(layout, disk, band)
      modifies this`disk, this`freeSectorCount, buffer
      ensures BandsMade(layout, disk, band + 1)
      ensures freeSectorCount == old(freeSectorCount) - layout.bitmapSize
    {
      var bitmapStart := BitmapBegin(layout, band);
      ghost var before := disk;
      ClearBand(bitmapStart);
      ghost var cleared := disk;
      BandCleared(layout, before, band, cleared);
      SetBitmap(bitmapStart, bitmapStart + layout.bitmapSize);
      BandMarked(layout, band, cleared, disk);
    }

    /** Make, as far as the bitmaps and the free count go. The contents of the superblock and
        of the root directory are parameters. */
    method Make(primarySuper: nat, sectorCount: nat, logSectorsPerBand: nat, extentSize: nat,
                superblock: seq<byte>, rootInode: seq<byte>, rootDir: seq<byte>) returns (ghost volume: Volume)
      requires buffer.Length == SECTORSIZE && |superblock| == |rootInode| == |rootDir| == SECTORSIZE
      requires Fits(primarySuper, sectorCount, logSectorsPerBand, extentSize)
      modifies this, buffer
      ensures volume == VolumeFor(primarySuper, sectorCount, logSectorsPerBand, extentSize)
      ensures volume.Ok() && BitsAre(volume.layout, volume.Sectors(), disk, volume.Reserved())
      ensures freeSectorCount == sectorCount - volume.Counted()
      ensures freeSectorCount ==
              sectorCount - Times(Power(logSectorsPerBand) / 4096, volume.bandCount)
              - (primarySuper + 1) - 1 - extentSize
      ensures var root, backup := primarySuper + 1 + Power(logSectorsPerBand) / 4096, volume.backupSuper;
              && Holds(disk, primarySuper, superblock) && Holds(disk, backup, superblock)
              && Holds(disk, root, if root == backup then superblock else rootInode)
              && Holds(disk, root + 1, if root + 1 == backup then superblock else rootDir)
    {
      PowerOfBand(logSectorsPerBand);
      var sectorsPerBand := Power(logSectorsPerBand);
      var bandBitmapSize := sectorsPerBand / 4096;
      var bandCount := Quotient(sectorCount + sectorsPerBand - 1, sectorsPerBand);
      this.logSectorsPerBand, this.sectorCount, freeSectorCount := logSectorsPerBand, sectorCount, sectorCount;
      var backupSuper := sectorsPerBand - 1;
      if backupSuper >= sectorCount {
        backupSuper := sectorCount - 1;
      }
      var bitmapStart := primarySuper + 1;
      var root := bitmapStart + bandBitmapSize;
      layout := Layout(sectorsPerBand, bandBitmapSize, bitmapStart);
      volume := VolumeFor(primarySuper, sectorCount, logSectorsPerBand, extentSize);
      VolumeFits(primarySuper, sectorCount, logSectorsPerBand, extentSize);
      MakeBands(bandCount);
      MakeReserved(primarySuper, backupSuper, root, extentSize, superblock, rootInode, rootDir, volume);
    }

    /** The loop of Make. */
    method MakeBands(bandCount: nat)
      requires layout.Ok() && buffer.Length == SECTORSIZE
      modifies this`disk, this`freeSectorCount, buffer
      ensures BandsMade(layout, disk, bandCount)
      ensures freeSectorCount == old(freeSectorCount) - Times(layout.bitmapSize, bandCount)
    {
      var band := 0;
      while band != bandCount
        invariant 0 <= band <= bandCount && BandsMade(layout, disk, band)
        invariant freeSectorCount == old(freeSectorCount) - Times(layout.bitmapSize, band)
      {
        MakeBand(band);
        band := band + 1;
      }
    }

    /** Make after its loop. */
    method MakeReserved(primarySuper: nat, backupSuper: nat, root: nat, extentSize: nat,
                        superblock: seq<byte>, rootInode: seq<byte>, rootDir: seq<byte>, ghost volume: Volume)
      requires buffer.Length == SECTORSIZE && |superblock| == |rootInode| == |rootDir| == SECTORSIZE
      requires volume.Ok() && layout == volume.layout && BandsMade(layout, disk, volume.bandCount)
      requires primarySuper == volume.primarySuper && backupSuper == volume.backupSuper && root == volume.Root()
      requires extentSize == volume.extentSize
      modifies this`disk, this`freeSectorCount, buffer
      ensures BitsAre(volume.layout, volume.Sectors(), disk, volume.Reserved())
      ensures freeSectorCount == old(freeSectorCount) - (primarySuper + 1) - 1 - extentSize
      ensures Holds(disk, primarySuper, superblock) && Holds(disk, backupSuper, superblock)
      ensures Holds(disk, root, if root == backupSuper then superblock else rootInode)
      ensures Holds(disk, root + 1, if root + 1 == backupSuper then superblock else rootDir)
    {
      ghost var n, bits := volume.Sectors(), volume.Bitmaps();
      FirstBand(volume);
      forall s: nat | s < n
        ensures s in bits <==> IsBitmapSector(layout, s)
      {
        InBitmaps(layout, volume.bandCount, s);
      }
      bits := MarkRange(0, primarySuper + 1, n, bits);
      bits := MarkRange(backupSuper, backupSuper + 1, n, bits);
      hide BitsAre, IsBitmapSector;
      bits := PlaceRoot(root, extentSize, rootInode, rootDir, n, bits);
      PlaceSuper(primarySuper, backupSuper, superblock, n, bits);
      assert bits == volume.Reserved();
    }

    /** The root directory and its extent. */
    method PlaceRoot(root: nat, extentSize: nat, rootInode: seq<byte>, rootDir: seq<byte>, ghost n: nat,
                     ghost bits: set<nat>)
      returns (ghost bits': set<nat>)
      requires layout.Ok() && buffer.Length == SECTORSIZE && BitsAre(layout, n, disk, bits) && root + extentSize <= n
      requires |rootInode| == |rootDir| == SECTORSIZE
      requires !IsBitmapSector(layout, root) && !IsBitmapSector(layout, root + 1)
      modifies this`disk, this`freeSectorCount, buffer
      ensures bits' == bits + Range(root, root + extentSize) && BitsAre(layout, n, disk, bits')
      ensures freeSectorCount == old(freeSectorCount) - extentSize
      ensures Holds(disk, root, rootInode) && Holds(disk, root + 1, rootDir)
    {
      hide BitsAre, IsBitmapSector;
      WriteData(root, rootInode, n, bits);
      WriteData(root + 1, rootDir, n, bits);
      bits' := MarkRange(root, root + extentSize, n, bits);
    }

    /** The superblock and its backup. */
    method PlaceSuper(primarySuper: nat, backupSuper: nat, superblock: seq<byte>, ghost n: nat, ghost bits: set<nat>)
      requires layout.Ok() && BitsAre(layout, n, disk, bits) && |superblock| == SECTORSIZE
      requires !IsBitmapSector(layout, primarySuper) && !IsBitmapSector(layout, backupSuper)
      modifies this`disk
      ensures BitsAre(layout, n, disk, bits)
      ensures disk == old(disk)[primarySuper := superblock][backupSuper := superblock]
    {
      hide BitsAre, IsBitmapSector;
      WriteData(primarySuper, superblock, n, bits);
      WriteData(backupSuper, superblock, n, bits);
    }

    /** setBitmap, as it changes the set of marked sectors. */
    method MarkRange(begin: nat, end: nat, ghost n: nat, ghost bits: set<nat>) returns (ghost bits': set<nat>)
      requires layout.Ok() && buffer.Length == SECTORSIZE && BitsAre(layout, n, disk, bits) && begin <= end <= n
      modifies this`disk, this`freeSectorCount, buffer
      ensures bits' == bits + Range(begin, end) && BitsAre(layout, n, disk, bits')
      ensures freeSectorCount == old(freeSectorCount) - (end - begin)
      ensures disk.Keys == old(disk).Keys
      ensures forall s :: s in disk && !IsBitmapSector(layout, s) ==> disk[s] == old(disk)[s]
    {
      SetBitmap(begin, end);
      bits' := bits + Range(begin, end);
    }

    /** Writing a sector that is not part of a bitmap. */
    method WriteData(s: nat, data: seq<byte>, ghost n: nat, ghost bits: set<nat>)
      requires layout.Ok() && BitsAre(layout, n, disk, bits) && !IsBitmapSector(layout, s) && |data| == SECTORSIZE
      modifies this`disk
      ensures BitsAre(layout, n, disk, bits) && disk == old(disk)[s := data]
    {
      DataKeepsBits(layout, n, disk, bits, s, data);
      WriteSector(s, data);
    }
  }

  predicate Holds(disk: Disk, s: nat, data: seq<byte>) {
    s in disk && disk[s] == data
  }

  /** In the first `bands` bands exactly the bits of the bitmaps themselves are set. */
  ghost predicate BandsMade(g: Layout, disk: Disk, bands: nat)
    requires g.Ok()
  {
    && Reachable(g, disk, 0, Times(g.sectorsPerBand, bands))
    && forall s: nat {:trigger IsSet(g, disk, s)} :: s < Times(g.sectorsPerBand, bands) ==>
      (IsSet(g, disk, s) <==> IsBitmapSector(g, s))
  }

  /** The bitmap of a band lies within the band. */
  lemma BitmapInBand(g: Layout, band: nat, n: nat)
    requires g.Ok() && BitmapBegin(g, band) <= n < BitmapBegin(g, band) + g.bitmapSize
    ensures Quotient(n, g.sectorsPerBand) == band && IsBitmapSector(g, n) && n < Times(g.sectorsPerBand, band + 1)
  {
    RestAt(band, n - Times(g.sectorsPerBand, band), g.sectorsPerBand);
  }

  /** With a bitmap of zeros a band has no bit set. */
  lemma BandCleared(g: Layout, before: Disk, band: nat, disk: Disk)
    requires g.Ok() && BandsMade(g, before, band)
    requires var begin := BitmapBegin(g, band);
             && (forall n :: begin <= n < begin + g.bitmapSize ==> n in disk && disk[n] == seq(SECTORSIZE, _ => 0))
             && (forall n :: !(begin <= n < begin + g.bitmapSize) ==>
                   (n in disk <==> n in before) && (n in disk ==> disk[n] == before[n]))
    ensures BandsMade(g, disk, band) && Reachable(g, disk, 0, Times(g.sectorsPerBand, band + 1))
    ensures forall s: nat {:trigger IsSet(g, disk, s)} :: Quotient(s, g.sectorsPerBand) == band ==> !IsSet(g, disk, s)
  {
    forall s: nat {:trigger BitmapSector(g, s)} | s < Times(g.sectorsPerBand, band + 1)
      ensures BitmapSector(g, s) in disk && |disk[BitmapSector(g, s)]| == SECTORSIZE
      ensures s < Times(g.sectorsPerBand, band) ==> disk[BitmapSector(g, s)] == before[BitmapSector(g, s)]
    {
      QuotientBelow(s, g.sectorsPerBand, band);
      QuotientBelow(s, g.sectorsPerBand, band + 1);
      ElsewhereOrHere(g, s, band);
    }
    forall s: nat {:trigger IsSet(g, disk, s)} | s < Times(g.sectorsPerBand, band)
      ensures IsSet(g, disk, s) <==> IsBitmapSector(g, s)
    {
      assert BitmapSector(g, s) in disk;
      assert IsSet(g, before, s) <==> IsBitmapSector(g, s);
    }
    forall s: nat {:trigger IsSet(g, disk, s)} | Quotient(s, g.sectorsPerBand) == band
      ensures !IsSet(g, disk, s)
    {
      ElsewhereOrHere(g, s, band);
      NoBitInZero(BitOfSector(g, s));
    }
  }

  lemma ElsewhereOrHere(g: Layout, s: nat, band: nat)
    requires g.Ok()
    ensures var begin := BitmapBegin(g, band);
            Quotient(s, g.sectorsPerBand) == band <==> begin <= BitmapSector(g, s) < begin + g.bitmapSize
  {
    BitmapSectorAt(g, s);
    var n := BitmapSector(g, s);
    if BitmapBegin(g, band) <= n < BitmapBegin(g, band) + g.bitmapSize {
      BitmapInBand(g, band, n);
    }
  }

  lemma NoBitInZero(k: nat)
    requires k < 4096
    ensures !BitIn(seq(SECTORSIZE, _ => 0), k)
  {
    ZeroBit(k % 8);
  }

  lemma {:induction false} ZeroBit(k: nat)
    ensures !WordBit(0, k)
  {
    if k > 0 {
      ZeroBit(k - 1);
    }
  }

  /** Marking the bitmap of the band completes it. */
  lemma BandMarked(g: Layout, band: nat, cleared: Disk, disk: Disk)
    requires g.Ok() && BandsMade(g, cleared, band) && Reachable(g, cleared, 0, Times(g.sectorsPerBand, band + 1))
    requires forall s: nat {:trigger IsSet(g, cleared, s)} :: Quotient(s, g.sectorsPerBand) == band ==>
               !IsSet(g, cleared, s)
    requires Marked(g, cleared, BitmapBegin(g, band), BitmapBegin(g, band) + g.bitmapSize, disk)
    ensures BandsMade(g, disk, band + 1)
  {
    forall s: nat {:trigger IsSet(g, disk, s)} | s < Times(g.sectorsPerBand, band + 1)
      ensures IsSet(g, disk, s) <==> IsBitmapSector(g, s)
    {
      SectorMarked(g, band, cleared, disk, s);
    }
  }

  lemma SectorMarked(g: Layout, band: nat, cleared: Disk, disk: Disk, s: nat)
    requires g.Ok() && BandsMade(g, cleared, band) && s < Times(g.sectorsPerBand, band + 1)
    requires Quotient(s, g.sectorsPerBand) == band ==> !IsSet(g, cleared, s)
    requires Marked(g, cleared, BitmapBegin(g, band), BitmapBegin(g, band) + g.bitmapSize, disk)
    ensures IsSet(g, disk, s) <==> IsBitmapSector(g, s)
  {
    QuotientBelow(s, g.sectorsPerBand, band);
    QuotientBelow(s, g.sectorsPerBand, band + 1);
    assert IsSet(g, disk, s) <==>
      IsSet(g, cleared, s) || BitmapBegin(g, band) <= s < BitmapBegin(g, band) + g.bitmapSize;
    if BitmapBegin(g, band) <= s < BitmapBegin(g, band) + g.bitmapSize {
      BitmapInBand(g, band, s);
    } else if Quotient(s, g.sectorsPerBand) < band {
      assert IsSet(g, cleared, s) <==> IsBitmapSector(g, s);
    } else {
      assert Quotient(s, g.sectorsPerBand) == band;
    }
  }

  // ---------------------------------------------------------------- the reserved sectors

  /** The sectors from `begin` to `end` - 1. */
  function Range(begin: nat, end: nat): (r: set<nat>)
    ensures forall s :: s in r <==> begin <= s < end
    decreases end
  {
    if begin < end then Range(begin, end - 1) + {end - 1} else {}
  }

  /** The sectors below `n` whose bits are set are those in `bits`. */
  ghost predicate BitsAre(g: Layout, n: nat, disk: Disk, bits: set<nat>)
    requires g.Ok()
  {
    && Reachable(g, disk, 0, n)
    && forall s: nat {:trigger IsSet(g, disk, s)} :: s < n ==> (IsSet(g, disk, s) <==> s in bits)
  }

  lemma DataKeepsBits(g: Layout, n: nat, disk: Disk, bits: set<nat>, s: nat, data: seq<byte>)
    requires g.Ok() && BitsAre(g, n, disk, bits) && !IsBitmapSector(g, s)
    ensures BitsAre(g, n, disk[s := data], bits)
  {
    forall t: nat {:trigger BitmapSector(g, t)} | t < n
      ensures BitmapSector(g, t) in disk[s := data] && disk[s := data][BitmapSector(g, t)] == disk[BitmapSector(g, t)]
    {
      BitmapSectorAt(g, t);
    }
    forall t: nat {:trigger IsSet(g, disk[s := data], t)} | t < n
      ensures IsSet(g, disk[s := data], t) <==> t in bits
    {
      assert BitmapSector(g, t) in disk[s := data] && (IsSet(g, disk, t) <==> t in bits);
    }
  }

  /** What Make computes from its arguments. */
  datatype Volume = Volume(layout: Layout, primarySuper: nat, backupSuper: nat, bandCount: nat, extentSize: nat)
  {
    function Root(): nat {
      layout.bitmapStart + layout.bitmapSize
    }

    function Sectors(): nat {
      Times(layout.sectorsPerBand, bandCount)
    }

    /** The sectors of the bitmaps. */
    function Bitmaps(): set<nat>
      requires layout.Ok()
    {
      BitmapsOf(layout, bandCount)
    }

    /** The sectors that end up allocated. */
    function Reserved(): set<nat>
      requires layout.Ok()
    {
      Bitmaps() + Range(0, primarySuper + 1) + Range(backupSuper, backupSuper + 1) + Range(Root(), Root() + extentSize)
    }

    /** What is taken from the free count: the sizes of the ranges. */
    function Counted(): nat {
      Times(layout.bitmapSize, bandCount) + (primarySuper + 1) + 1 + extentSize
    }

    predicate Ok() {
      && layout.Ok() && layout.bitmapStart == primarySuper + 1 && bandCount > 0
      && Root() <= backupSuper < layout.sectorsPerBand && Root() + 1 < layout.sectorsPerBand
      && Root() + extentSize <= Sectors()
    }
  }

  function VolumeFor(primarySuper: nat, sectorCount: nat, log: nat, extentSize: nat): Volume {
    var n := Power(log);
    Volume(Layout(n, n / 4096, primarySuper + 1), primarySuper,
           if n - 1 >= sectorCount && sectorCount > 0 then sectorCount - 1 else n - 1,
           Quotient(sectorCount + n - 1, n), extentSize)
  }

  /** The volume in plain arithmetic: bands of 2 to the `log` sectors with a bit for each, as many as are
      begun; the backup superblock is in the last sector of the first band or of the volume. */
  lemma VolumeIs(primarySuper: nat, sectorCount: nat, log: nat, extentSize: nat)
    requires Fits(primarySuper, sectorCount, log, extentSize)
    ensures var v, n := VolumeFor(primarySuper, sectorCount, log, extentSize), Power(log);
            && v.layout.sectorsPerBand == n == 4096 * v.layout.bitmapSize && v.layout.bitmapStart == primarySuper + 1
            && v.Root() == primarySuper + 1 + n / 4096
            && v.primarySuper == primarySuper && v.extentSize == extentSize
            && v.backupSuper == (if n <= sectorCount then n - 1 else sectorCount - 1)
            && v.bandCount > 0 && Times(n, v.bandCount - 1) < sectorCount <= Times(n, v.bandCount)
  {
    var v, n := VolumeFor(primarySuper, sectorCount, log, extentSize), Power(log);
    PowerOfBand(log);
    VolumeFits(primarySuper, sectorCount, log, extentSize);
    Position(sectorCount + n - 1, n);
    assert Times(n, v.bandCount) == n + Times(n, v.bandCount - 1);
  }

  /** The sectors that are reserved: the bitmaps, all up to the superblock, its backup, and the extent
      of the root directory. */
  lemma ReservedIs(v: Volume, s: nat)
    requires v.Ok()
    ensures s in v.Reserved() <==>
              || (s < Times(v.layout.sectorsPerBand, v.bandCount) && IsBitmapSector(v.layout, s))
              || s <= v.primarySuper || s == v.backupSuper
              || v.layout.bitmapStart + v.layout.bitmapSize <= s
                 < v.layout.bitmapStart + v.layout.bitmapSize + v.extentSize
  {
    InBitmaps(v.layout, v.bandCount, s);
  }

  /** The volume has room for what Make puts in its first band, and for the root extent. */
  predicate Fits(primarySuper: nat, sectorCount: nat, log: nat, extentSize: nat) {
    && log >= 12
    && var root := primarySuper + 1 + Power(log) / 4096;
    && root < sectorCount && root + 1 < Power(log)
    && root + extentSize <= Times(Power(log), Quotient(sectorCount + Power(log) - 1, Power(log)))
  }

  lemma {:induction false} PowerOfBand(log: nat)
    requires log >= 12
    ensures Power(log) / 4096 > 0 && Power(log) == 4096 * (Power(log) / 4096)
  {
    if log == 12 {
      assert Power(6) == 64;
      assert Power(12) == 4096;
    } else {
      PowerOfBand(log - 1);
    }
  }

  lemma VolumeFits(primarySuper: nat, sectorCount: nat, log: nat, extentSize: nat)
    requires Fits(primarySuper, sectorCount, log, extentSize)
    ensures VolumeFor(primarySuper, sectorCount, log, extentSize).Ok()
  {
    PowerOfBand(log);
    QuotientBelow(sectorCount + Power(log) - 1, Power(log), 1);
    assert Times(Power(log), 1) == Power(log) + Times(Power(log), 0);
  }

  /** The superblocks and the root directory are not in the bitmap of the first band. */
  lemma FirstBand(v: Volume)
    requires v.Ok()
    ensures forall s: nat :: s < v.layout.sectorsPerBand && !(v.layout.bitmapStart <= s < v.Root()) ==>
              !IsBitmapSector(v.layout, s)
    ensures v.layout.sectorsPerBand <= v.Sectors()
  {
    TimesMonotone(v.layout.sectorsPerBand, 1, v.bandCount);
    assert Times(v.layout.sectorsPerBand, 1) == v.layout.sectorsPerBand + Times(v.layout.sectorsPerBand, 0);
  }

  // ---------------------------------------------------------------- the free count

  /** How many of the first `n` sectors are in a set. */
  function Count(bits: set<nat>, n: nat): (c: nat)
    ensures c <= n
  {
    if n == 0 then 0 else Count(bits, n - 1) + (if n - 1 in bits then 1 else 0)
  }

  lemma {:induction false} CountRange(begin: nat, end: nat, n: nat)
    requires begin <= end
    ensures Count(Range(begin, end), n) == if n <= begin then 0 else if n <= end then n - begin else end - begin
  {
    if n > 0 {
      CountRange(begin, end, n - 1);
    }
  }

  lemma {:induction false} CountApart(a: set<nat>, b: set<nat>, n: nat)
    requires forall s :: s in b ==> s !in a
    ensures Count(a + b, n) == Count(a, n) + Count(b, n)
  {
    if n > 0 {
      CountApart(a, b, n - 1);
    }
  }

  lemma {:induction false} CountMeeting(a: set<nat>, b: set<nat>, n: nat)
    ensures Count(a + b, n) <= Count(a, n) + Count(b, n)
    ensures (exists s :: s < n && s in a && s in b) ==> Count(a + b, n) < Count(a, n) + Count(b, n)
  {
    if n > 0 {
      CountMeeting(a, b, n - 1);
    }
  }

  /** The sectors of the bitmaps of the first `bands` bands. */
  function BitmapsOf(g: Layout, bands: nat): set<nat>
    requires g.Ok()
  {
    if bands == 0 then {}
    else BitmapsOf(g, bands - 1) + Range(BitmapBegin(g, bands - 1), BitmapBegin(g, bands - 1) + g.bitmapSize)
  }

  lemma {:induction false} InBitmaps(g: Layout, bands: nat, s: nat)
    requires g.Ok()
    ensures s in BitmapsOf(g, bands) <==> s < Times(g.sectorsPerBand, bands) && IsBitmapSector(g, s)
  {
    if bands > 0 {
      InBitmaps(g, bands - 1, s);
      OneMoreBand(g, bands - 1, s);
    }
  }

  lemma {:induction false} CountBitmaps(g: Layout, bands: nat, n: nat)
    requires g.Ok() && Times(g.sectorsPerBand, bands) <= n
    ensures Count(BitmapsOf(g, bands), n) == Times(g.bitmapSize, bands)
  {
    if bands == 0 {
      CountRange(0, 0, n);
    } else {
      hide Count, IsBitmapSector;
      var begin := BitmapBegin(g, bands - 1);
      CountBitmaps(g, bands - 1, n);
      OneMoreBand(g, bands - 1, begin + g.bitmapSize - 1);
      CountRange(begin, begin + g.bitmapSize, n);
      BandApart(g, bands - 1);
      CountApart(BitmapsOf(g, bands - 1), Range(begin, begin + g.bitmapSize), n);
    }
  }

  lemma BandApart(g: Layout, band: nat)
    requires g.Ok()
    ensures forall s :: BitmapBegin(g, band) <= s < BitmapBegin(g, band) + g.bitmapSize ==> s !in BitmapsOf(g, band)
  {
    forall s | BitmapBegin(g, band) <= s < BitmapBegin(g, band) + g.bitmapSize
      ensures s !in BitmapsOf(g, band)
    {
      OneMoreBand(g, band, s);
      InBitmaps(g, band, s);
    }
  }

  lemma OneMoreBand(g: Layout, band: nat, s: nat)
    requires g.Ok()
    ensures var last := BitmapBegin(g, band) <= s < BitmapBegin(g, band) + g.bitmapSize;
            && (last ==> Times(g.sectorsPerBand, band) <= s < Times(g.sectorsPerBand, band + 1) && IsBitmapSector(g, s))
            && (Times(g.sectorsPerBand, band) <= s < Times(g.sectorsPerBand, band + 1) && IsBitmapSector(g, s) ==> last)
  {
    QuotientBelow(s, g.sectorsPerBand, band);
    QuotientBelow(s, g.sectorsPerBand, band + 1);
    if BitmapBegin(g, band) <= s < BitmapBegin(g, band) + g.bitmapSize {
      BitmapInBand(g, band, s);
    }
  }

  /** After Make the free count is the number of sectors less the number of set bits exactly
      when the reserved ranges do not overlap, that is, when the extent of the root directory
      ends before the backup superblock. */
  lemma FreeCountExact(v: Volume)
    requires v.Ok()
    ensures Count(v.Reserved(), v.Sectors()) <= v.Counted()
    ensures Count(v.Reserved(), v.Sectors()) == v.Counted() <==> v.Root() + v.extentSize <= v.backupSuper
  {
    var three, root := FirstThree(v), Range(v.Root(), v.Root() + v.extentSize);
    CountFirstThree(v);
    CountRange(v.Root(), v.Root() + v.extentSize, v.Sectors());
    if v.Root() + v.extentSize <= v.backupSuper {
      RootApart(v);
      CountApart(three, root, v.Sectors());
    } else {
      FirstBand(v);
      assert v.backupSuper < v.Sectors() && v.backupSuper in three && v.backupSuper in root;
      CountMeeting(three, root, v.Sectors());
    }
  }

  /** A volume of 100 sectors whose root extent takes all that is left: its last sector is the
      backup superblock, and counts twice. */
  lemma BackupCountsTwice()
    ensures var v := VolumeFor(0, 100, 12, 98);
            && Fits(0, 100, 12, 98) && v.Ok() && v.backupSuper == 99
            && Count(v.Reserved(), v.Sectors()) < v.Counted()
  {
    assert Power(6) == 64;
    assert Power(12) == 4096;
    QuotientOf(1, 99, 4096);
    assert Quotient(100 + 4096 - 1, 4096) == 1 && Times(4096, 1) == 4096;
    FreeCountExact(VolumeFor(0, 100, 12, 98));
  }

  /** All but the extent of the root directory. */
  function FirstThree(v: Volume): set<nat>
    requires v.layout.Ok()
  {
    v.Bitmaps() + Range(0, v.primarySuper + 1) + Range(v.backupSuper, v.backupSuper + 1)
  }

  lemma CountFirstThree(v: Volume)
    requires v.Ok()
    ensures Count(FirstThree(v), v.Sectors()) == Times(v.layout.bitmapSize, v.bandCount) + (v.primarySuper + 1) + 1
  {
    CountBitmaps(v.layout, v.bandCount, v.Sectors());
    CountRange(0, v.primarySuper + 1, v.Sectors());
    CountRange(v.backupSuper, v.backupSuper + 1, v.Sectors());
    FirstBand(v);
    NoBitmapThere(v);
    CountApart(v.Bitmaps(), Range(0, v.primarySuper + 1), v.Sectors());
    CountApart(v.Bitmaps() + Range(0, v.primarySuper + 1), Range(v.backupSuper, v.backupSuper + 1), v.Sectors());
  }

  lemma NoBitmapThere(v: Volume)
    requires v.Ok()
    ensures forall s :: 0 <= s <= v.primarySuper ==> s !in v.Bitmaps()
    ensures v.backupSuper !in v.Bitmaps() && v.backupSuper > v.primarySuper
  {
    FirstBand(v);
    InBitmaps(v.layout, v.bandCount, v.backupSuper);
    forall s | 0 <= s <= v.primarySuper
      ensures s !in v.Bitmaps()
    {
      InBitmaps(v.layout, v.bandCount, s);
    }
  }

  lemma RootApart(v: Volume)
    requires v.Ok() && v.Root() + v.extentSize <= v.backupSuper
    ensures forall s :: v.Root() <= s < v.Root() + v.extentSize ==> s !in FirstThree(v)
  {
    FirstBand(v);
    forall s | v.Root() <= s < v.Root() + v.extentSize
      ensures s !in v.Bitmaps()
    {
      InBitmaps(v.layout, v.bandCount, s);
    }
  }
}
