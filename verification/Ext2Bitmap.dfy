/** bitmap.h and bitmap.c: bits in an array of 32-bit words. */
module Ext2Bitmap {
  import opened Machine
  import opened Ext2Disk
  import opened Bits

  lemma PowerOfWord()
    ensures Power(32) == WORD
  {
    assert Power(8) == 256;
    assert Power(16) == 65536;
    assert Power(24) == 0x100_0000;
  }

  /** GetBit */
  predicate Bit(bitmap: seq<Word>, bit: nat)
    requires bit < 32 * |bitmap|
  {
    WordBit(bitmap[bit / 32], bit % 32)
  }

  /** SetBit and UnsetBit */
  function PutBit(bitmap: seq<Word>, bit: nat, on: bool): (r: seq<Word>)
    requires bit < 32 * |bitmap|
    ensures |r| == |bitmap|
  {
    PowerOfWord();
    WithBitFits(bitmap[bit / 32], bit % 32, on, 32);
    bitmap[bit / 32 := WithBit(bitmap[bit / 32], bit % 32, on)]
  }

  lemma PutBitAt(bitmap: seq<Word>, bit: nat, on: bool, j: nat)
    requires bit < 32 * |bitmap| && j < 32 * |bitmap|
    ensures Bit(PutBit(bitmap, bit, on), j) == if j == bit then on else Bit(bitmap, j)
  {
    if j / 32 == bit / 32 {
      WithBitAt(bitmap[bit / 32], bit % 32, on, j % 32);
    }
  }

  /** FindFirstUnsetBit: the first clear bit, or -1 when all are set. */
  method FindFirstUnsetBit(bitmap: seq<Word>) returns (r: int)
    ensures r == -1 || 0 <= r < 32 * |bitmap|
    ensures r >= 0 ==> !Bit(bitmap, r) && forall j :: 0 <= j < r ==> Bit(bitmap, j)
    ensures r == -1 ==> forall j :: 0 <= j < 32 * |bitmap| ==> Bit(bitmap, j)
  {
    PowerOfWord();
    var i := 0;
    while i < |bitmap|
      invariant 0 <= i <= |bitmap|
      invariant forall j :: 0 <= j < 32 * i ==> Bit(bitmap, j)
    {
      var dword := bitmap[i];
      FullWord(dword, 32);
      if dword != 0xFFFF_FFFF {
        var k := LowestClear(dword, 32);
        forall j | 0 <= j < i * 32 + k
          ensures Bit(bitmap, j)
        {
          assert j >= 32 * i ==> j / 32 == i && j % 32 == j - 32 * i && WordBit(dword, j - 32 * i);
        }
        return i * 32 + k;
      }
      assert forall k :: 0 <= k < 32 ==> WordBit(dword, k);
      forall j | 0 <= j < 32 * (i + 1)
        ensures Bit(bitmap, j)
      {
        assert j >= 32 * i ==> j / 32 == i && j % 32 == j - 32 * i && WordBit(dword, j - 32 * i);
      }
      i := i + 1;
    }
    return -1;
  }

  /** The number of clear bits among the first `n`. */
  function CountClear(bitmap: seq<Word>, n: nat): (c: nat)
    requires n <= 32 * |bitmap|
    ensures c <= n
  {
    if n == 0 then 0 else CountClear(bitmap, n - 1) + (if Bit(bitmap, n - 1) then 0 else 1)
  }

  lemma {:induction false} CountAfterPut(bitmap: seq<Word>, bit: nat, on: bool, n: nat)
    requires bit < 32 * |bitmap| && n <= 32 * |bitmap|
    ensures CountClear(PutBit(bitmap, bit, on), n) ==
            CountClear(bitmap, n) + (if bit < n && Bit(bitmap, bit) != on then (if on then -1 else 1) else 0)
  {
    if n > 0 {
      CountAfterPut(bitmap, bit, on, n - 1);
      PutBitAt(bitmap, bit, on, n - 1);
    }
  }

  /** Some bit is clear exactly when the count says so. */
  lemma {:induction false} CountIsExact(bitmap: seq<Word>, n: nat)
    requires n <= 32 * |bitmap|
    ensures CountClear(bitmap, n) > 0 <==> exists j :: 0 <= j < n && !Bit(bitmap, j)
  {
    if n > 0 {
      CountIsExact(bitmap, n - 1);
    }
  }
}
