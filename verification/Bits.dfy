/** Single bits of a number. */
module Bits {

  /** Bit `k` of a word. */
  function WordBit(w: nat, k: nat): bool
  {
    if k == 0 then w % 2 == 1 else WordBit(w / 2, k - 1)
  }

  function Power(k: nat): (p: nat)
    ensures p > 0
  {
    if k == 0 then 1 else 2 * Power(k - 1)
  }

  /** Bit `k` is the one of value 2 to the `k`. */
  lemma {:induction false} WordBitIs(w: nat, k: nat)
    ensures WordBit(w, k) <==> w / Power(k) % 2 == 1
    ensures Power(0) == 1 && Power(k + 1) == 2 * Power(k)
  {
    if k > 0 {
      WordBitIs(w / 2, k - 1);
      HalfThenRest(w, Power(k - 1));
    }
  }

  lemma HalfThenRest(w: nat, p: nat)
    requires p > 0
    ensures w / 2 / p == w / (2 * p)
  {
    var q := w / 2 / p;
    assert w / 2 == p * q + w / 2 % p;
    assert w == 2 * (p * q) + 2 * (w / 2 % p) + w % 2;
    assert 2 * (p * q) == (2 * p) * q;
    QuotientIs(w, 2 * p, q, 2 * (w / 2 % p) + w % 2);
  }

  lemma QuotientIs(w: nat, n: nat, q: nat, r: nat)
    requires n > 0 && w == n * q + r && r < n
    ensures w / n == q
  {
    var d: int := q - w / n;
    assert n * d == w % n - r;
    assert d > 0 ==> n * d >= n;
    assert d < 0 ==> n * d + n <= 0;
  }

  /** The word with bit `k` on, as `|=` makes it, or off. */
  function WithBit(w: nat, k: nat, on: bool): nat
  {
    if k == 0 then (if on then w / 2 * 2 + 1 else w / 2 * 2) else w % 2 + 2 * WithBit(w / 2, k - 1, on)
  }

  lemma {:induction false} WithBitFits(w: nat, k: nat, on: bool, n: nat)
    requires k < n && w < Power(n)
    ensures WithBit(w, k, on) < Power(n)
  {
    if k > 0 {
      WithBitFits(w / 2, k - 1, on, n - 1);
    }
  }

  /** Exactly the one bit is set or cleared. */
  lemma {:induction false} WithBitAt(w: nat, k: nat, on: bool, j: nat)
    ensures WordBit(WithBit(w, k, on), j) == if j == k then on else WordBit(w, j)
  {
    if k > 0 && j > 0 {
      WithBitAt(w / 2, k - 1, on, j - 1);
    }
  }

  /** __builtin_ffs(~w) - 1: the lowest clear bit of a word that has one. */
  function LowestClear(w: nat, n: nat): (k: nat)
    requires w < Power(n) && w != Power(n) - 1
    ensures k < n && !WordBit(w, k) && forall j :: 0 <= j < k ==> WordBit(w, j)
  {
    if w % 2 == 0 then 0
    else
      assert forall j :: 0 < j ==> WordBit(w, j) == WordBit(w / 2, j - 1);
      1 + LowestClear(w / 2, n - 1)
  }

  lemma {:induction false} FullWordAt(n: nat, j: nat)
    requires j < n
    ensures WordBit(Power(n) - 1, j)
  {
    assert (Power(n) - 1) / 2 == Power(n - 1) - 1;
    if j > 0 {
      FullWordAt(n - 1, j - 1);
    }
  }

  /** A word of `n` bits is full when no bit is clear. */
  lemma FullWord(w: nat, n: nat)
    requires w < Power(n)
    ensures w == Power(n) - 1 <==> forall j :: 0 <= j < n ==> WordBit(w, j)
  {
    if w == Power(n) - 1 {
      forall j | 0 <= j < n
        ensures WordBit(w, j)
      {
        FullWordAt(n, j);
      }
    } else {
      assert !WordBit(w, LowestClear(w, n));
    }
  }
}
