/** The sector bitmaps of a LEAN volume: every band of sectors starts with the bitmap of the
    band, except that in the first band it follows the superblock. */
module LeanBitmap {
  import opened Machine
  import opened Arithmetic
  import opened Bits

  const SECTORSIZE := 512

  /** sectorsPerBand_, bandBitmapSize_ and sb_bitmapStart. */
  datatype Layout = Layout(sectorsPerBand: nat, bitmapSize: nat, bitmapStart: nat)
  {
    /** A band has at least one whole sector of bits, and the first bitmap fits in its band. */
    predicate Ok() {
      bitmapSize > 0 && sectorsPerBand == 4096 * bitmapSize && bitmapStart + bitmapSize <= sectorsPerBand
    }
  }

  type Disk = map<nat, seq<byte>>

  /** The first sector of the bitmap of a band. */
  function BitmapBegin(g: Layout, band: nat): nat {
    if band == 0 then g.bitmapStart else Times(g.sectorsPerBand, band)
  }

  /** The sector that holds the bit of sector `s`, and the place of the bit in it. */
  function BitmapSector(g: Layout, s: nat): nat
    requires g.Ok()
  {
    BitmapBegin(g, Quotient(s, g.sectorsPerBand)) + Rest(s, g.sectorsPerBand) / 4096
  }

  function BitOfSector(g: Layout, s: nat): (k: nat)
    requires g.Ok()
    ensures k < 4096
  {
    Rest(s, g.sectorsPerBand) % 4096
  }

  predicate IsBitmapSector(g: Layout, n: nat)
    requires g.Ok()
  {
    var begin := BitmapBegin(g, Quotient(n, g.sectorsPerBand));
    begin <= n < begin + g.bitmapSize
  }

  /** Bit `k` of a sector's contents. */
  predicate BitIn(data: seq<byte>, k: nat) {
    k / 8 < |data| && WordBit(data[k / 8] as nat, k % 8)
  }

  predicate IsSet(g: Layout, disk: Disk, s: nat)
    requires g.Ok()
  {
    BitmapSector(g, s) in disk && BitIn(disk[BitmapSector(g, s)], BitOfSector(g, s))
  }

  /** Where the bit of a sector is: the sectors of a band have their bits in the order of their numbers,
      4096 in each bitmap sector and 8 in each byte, the lowest first. The bitmap of a band is at its
      start, and that of the first one at `bitmapStart`. */
  lemma BitIs(g: Layout, disk: Disk, s: nat)
    requires g.Ok() && BitmapSector(g, s) in disk && |disk[BitmapSector(g, s)]| == SECTORSIZE
    ensures var band, off := Quotient(s, g.sectorsPerBand), Rest(s, g.sectorsPerBand);
            var n := (if band == 0 then g.bitmapStart else Times(g.sectorsPerBand, band)) + off / 4096;
            && band == s / g.sectorsPerBand && off == s % g.sectorsPerBand
            && n in disk && |disk[n]| == 512
            && var k := off % 4096;
            && (IsSet(g, disk, s) <==> disk[n][k / 8] as nat / Power(k % 8) % 2 == 1)
  {
    hide BitIn, Quotient, Rest, Times, Power;
    QuotientIsDivision(s, g.sectorsPerBand);
    BitInIs(disk[BitmapSector(g, s)], BitOfSector(g, s));
  }

  lemma BitInIs(data: seq<byte>, k: nat)
    requires k / 8 < |data|
    ensures BitIn(data, k) <==> data[k / 8] as nat / Power(k % 8) % 2 == 1
  {
    hide WordBit, Power;
    WordBitIs(data[k / 8] as nat, k % 8);
  }

  /** A bitmap sector belongs to the band it lies in. */
  lemma BitmapSectorAt(g: Layout, s: nat)
    requires g.Ok()
    ensures Rest(s, g.sectorsPerBand) / 4096 < g.bitmapSize
    ensures Quotient(BitmapSector(g, s), g.sectorsPerBand) == Quotient(s, g.sectorsPerBand)
    ensures IsBitmapSector(g, BitmapSector(g, s))
  {
    var band := Quotient(s, g.sectorsPerBand);
    var off := BitmapSector(g, s) - Times(g.sectorsPerBand, band);
    RestAt(band, off, g.sectorsPerBand);
  }

  /** Every sector has a bit of its own. */
  lemma BitsApart(g: Layout, s: nat, t: nat)
    requires g.Ok() && BitmapSector(g, s) == BitmapSector(g, t) && BitOfSector(g, s) == BitOfSector(g, t)
    ensures s == t
  {
    BitmapSectorAt(g, s);
    BitmapSectorAt(g, t);
    Position(s, g.sectorsPerBand);
    Position(t, g.sectorsPerBand);
  }

  /** Sectors whose bits share a bitmap sector follow one another. */
  lemma SameBitmapSector(g: Layout, s: nat, k: nat)
    requires g.Ok() && BitOfSector(g, s) + k < 4096
    ensures BitmapSector(g, s + k) == BitmapSector(g, s) && BitOfSector(g, s + k) == BitOfSector(g, s) + k
    ensures Quotient(s + k, g.sectorsPerBand) == Quotient(s, g.sectorsPerBand)
  {
    Position(s, g.sectorsPerBand);
    RestAt(Quotient(s, g.sectorsPerBand), Rest(s, g.sectorsPerBand) + k, g.sectorsPerBand);
  }

  /** buffer_[k] |= mask */
  function OrBit(data: seq<byte>, k: nat): (r: seq<byte>)
    requires k / 8 < |data|
    ensures |r| == |data|
  {
    ByteFits(data[k / 8], k % 8);
    data[k / 8 := WithBit(data[k / 8] as nat, k % 8, true) as byte]
  }

  lemma ByteFits(b: byte, k: nat)
    requires k < 8
    ensures WithBit(b as nat, k, true) < 256
  {
    assert Power(8) == 256;
    WithBitFits(b as nat, k, true, 8);
  }

  lemma OrBitAt(data: seq<byte>, k: nat, j: nat)
    requires k / 8 < |data|
    ensures BitIn(OrBit(data, k), j) <==> j == k || BitIn(data, j)
  {
    if j / 8 == k / 8 {
      ByteFits(data[k / 8], k % 8);
      WithBitAt(data[k / 8] as nat, k % 8, true, j % 8);
    }
  }

  // ---------------------------------------------------------------- marking

  /** Bits `begin` to `end` are set and no other bit has changed, nor any sector but bitmaps. */
  ghost predicate Marked(g: Layout, before: Disk, begin: nat, end: nat, disk: Disk)
    requires g.Ok()
  {
    && disk.Keys == before.Keys
    && (forall n :: n in disk ==> |disk[n]| == |before[n]|)
    && (forall n :: n in disk && !IsBitmapSector(g, n) ==> disk[n] == before[n])
    && (forall t: nat {:trigger IsSet(g, disk, t)} :: IsSet(g, disk, t) <==> IsSet(g, before, t) || begin <= t < end)
  }

  lemma MarkedMore(g: Layout, before: Disk, begin: nat, s: nat, disk: Disk)
    requires g.Ok() && Marked(g, before, begin, s, disk) && begin <= s
    requires BitmapSector(g, s) in disk && |disk[BitmapSector(g, s)]| == SECTORSIZE
    ensures Marked(g, before, begin, s + 1,
                   disk[BitmapSector(g, s) := OrBit(disk[BitmapSector(g, s)], BitOfSector(g, s))])
  {
    var n, k := BitmapSector(g, s), BitOfSector(g, s);
    var disk' := disk[n := OrBit(disk[n], k)];
    BitmapSectorAt(g, s);
    forall t: nat {:trigger IsSet(g, disk', t)}
      ensures IsSet(g, disk', t) <==> IsSet(g, before, t) || begin <= t < s + 1
    {
      assert IsSet(g, disk, t) <==> IsSet(g, before, t) || begin <= t < s;
      if BitmapSector(g, t) == n {
        OrBitAt(disk[n], k, BitOfSector(g, t));
        if BitOfSector(g, t) == k {
          BitsApart(g, s, t);
        }
      }
    }
  }

  /** Where the next bitmap sector begins: in the same band, or with the next band. */
  lemma NextBitmapSector(g: Layout, s: nat)
    requires g.Ok()
    ensures var next, band := s + (4096 - BitOfSector(g, s)), Quotient(s, g.sectorsPerBand);
            if BitmapSector(g, s) + 1 < BitmapBegin(g, band) + g.bitmapSize then
              Quotient(next, g.sectorsPerBand) == band && BitmapSector(g, next) == BitmapSector(g, s) + 1
            else
              next == Times(g.sectorsPerBand, band + 1) && BitmapSector(g, s) + 1 == BitmapBegin(g, band) + g.bitmapSize
  {
    var r, band := Rest(s, g.sectorsPerBand), Quotient(s, g.sectorsPerBand);
    Position(s, g.sectorsPerBand);
    BitmapSectorAt(g, s);
    if r / 4096 + 1 < g.bitmapSize {
      RestAt(band, 4096 * (r / 4096 + 1), g.sectorsPerBand);
    }
  }
}
