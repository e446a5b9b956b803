// Machine words as numbers, with their bits.
module Bits {

  // the bit i of w: w & (1 << i)
  predicate Bit(w: nat, i: nat) { Shr(w, i) % 2 == 1 }

  // w >> i
  function Shr(w: nat, i: nat): nat
    decreases i
  {
    if i == 0 then w else Shr(w / 2, i - 1)
  }

  // w | (1 << i)
  function SetBit(w: nat, i: nat): nat
    decreases i
  {
    if i == 0 then w / 2 * 2 + 1 else SetBit(w / 2, i - 1) * 2 + w % 2
  }

  // w & ~(1 << i)
  function ClearBit(w: nat, i: nat): nat
    decreases i
  {
    if i == 0 then w / 2 * 2 else ClearBit(w / 2, i - 1) * 2 + w % 2
  }

  // 1 << k
  function Shl1(k: nat): (r: nat)
    ensures r >= 1
  {
    if k == 0 then 1 else 2 * Shl1(k - 1)
  }

  lemma {:induction false} Shl1Sum(i: nat, j: nat)
    ensures Shl1(i + j) == Shl1(i) * Shl1(j)
  {
    if i > 0 { Shl1Sum(i - 1, j); }
  }

  lemma {:induction false} Shl1Grows(i: nat, j: nat)
    requires i <= j
    ensures Shl1(i) <= Shl1(j)
  {
    if i < j { Shl1Grows(i, j - 1); }
  }

  // the bits of a word with a last bit b after the word q
  lemma BitAfter(q: nat, b: nat, j: nat)
    requires b < 2
    ensures Bit(q * 2 + b, j) == if j == 0 then b == 1 else Bit(q, j - 1)
  {
    assert (q * 2 + b) / 2 == q && (q * 2 + b) % 2 == b;
  }

  lemma {:induction false} SetBitBits(w: nat, i: nat, j: nat)
    ensures Bit(SetBit(w, i), j) == (i == j || Bit(w, j))
    decreases i
  {
    BitAfter(w / 2, w % 2, j);
    BitAfter(if i == 0 then w / 2 else SetBit(w / 2, i - 1), if i == 0 then 1 else w % 2, j);
    if i > 0 && j > 0 { SetBitBits(w / 2, i - 1, j - 1); }
  }

  lemma {:induction false} ClearBitBits(w: nat, i: nat, j: nat)
    ensures Bit(ClearBit(w, i), j) == (i != j && Bit(w, j))
    decreases i
  {
    BitAfter(w / 2, w % 2, j);
    BitAfter(if i == 0 then w / 2 else ClearBit(w / 2, i - 1), if i == 0 then 0 else w % 2, j);
    if i > 0 && j > 0 { ClearBitBits(w / 2, i - 1, j - 1); }
  }

  // words of k bits
  lemma {:induction false} SetBitBound(w: nat, i: nat, k: nat)
    requires w < Shl1(k) && i < k
    ensures SetBit(w, i) < Shl1(k)
    decreases k
  {
    if i > 0 {
      SetBitBound(w / 2, i - 1, k - 1);
      assert SetBit(w, i) == SetBit(w / 2, i - 1) * 2 + w % 2;
    }
  }

  lemma {:induction false} ClearBitBound(w: nat, i: nat)
    ensures ClearBit(w, i) <= w
    decreases i
  {
    if i > 0 { ClearBitBound(w / 2, i - 1); }
  }

  lemma {:induction false} HighBits(w: nat, k: nat, i: nat)
    requires w < Shl1(k) && i >= k
    ensures !Bit(w, i)
    decreases k, i
  {
    if k > 0 { HighBits(w / 2, k - 1, i - 1); } else if i > 0 { HighBits(0, 0, i - 1); }
  }

  lemma SomeBit(w: nat, k: nat, i: nat)
    requires i < k && Bit(w, i)
    ensures !(forall j :: 0 <= j < k ==> !Bit(w, j))
  {}

  lemma SomeClearBit(w: nat, k: nat, i: nat)
    requires i < k && !Bit(w, i)
    ensures !(forall j :: 0 <= j < k ==> Bit(w, j))
  {}

  // no bit is set exactly in zero, and every bit exactly in 2^k - 1
  lemma {:induction false} NoBits(w: nat, k: nat)
    requires w < Shl1(k)
    ensures w == 0 <==> forall i :: 0 <= i < k ==> !Bit(w, i)
    decreases k
  {
    if w == 0 {
      forall i | 0 <= i < k ensures !Bit(w, i) { HighBits(0, 0, i); }
    } else if w % 2 == 1 {
      assert k > 0;
      SomeBit(w, k, 0);
    } else {
      NoBits(w / 2, k - 1);
      var i :| 0 <= i < k - 1 && Bit(w / 2, i);
      SomeBit(w, k, i + 1);
    }
  }

  lemma {:induction false} AllBits(w: nat, k: nat)
    requires w < Shl1(k)
    ensures w == Shl1(k) - 1 <==> forall i :: 0 <= i < k ==> Bit(w, i)
    decreases k
  {
    if w == Shl1(k) - 1 {
      forall i | 0 <= i < k ensures Bit(w, i) { LowOnes(k, i); }
    } else if w % 2 == 0 {
      assert k > 0;
      SomeClearBit(w, k, 0);
    } else {
      AllBits(w / 2, k - 1);
      var i :| 0 <= i < k - 1 && !Bit(w / 2, i);
      SomeClearBit(w, k, i + 1);
    }
  }

  // (1 << k) - 1
  lemma {:induction false} LowOnes(k: nat, i: nat)
    ensures Bit(Shl1(k) - 1, i) == (i < k)
    decreases i
  {
    if k > 0 && i > 0 {
      assert (Shl1(k) - 1) / 2 == Shl1(k - 1) - 1;
      LowOnes(k - 1, i - 1);
    } else if k == 0 {
      HighBits(0, 0, i);
    }
  }

  // w >> k drops the low k bits
  lemma {:induction false} ShiftedBits(w: nat, k: nat, i: nat)
    ensures Bit(Shr(w, k), i) == Bit(w, k + i)
    decreases k
  {
    if k > 0 { ShiftedBits(w / 2, k - 1, i); }
  }

  lemma {:induction false} ShrIsDiv(w: nat, k: nat)
    ensures Shr(w, k) == w / Shl1(k)
    decreases k
  {
    if k > 0 {
      ShrIsDiv(w / 2, k - 1);
      DivDiv(w, Shl1(k - 1));
    }
  }

  lemma {:induction false} ShrHalf(w: nat, k: nat)
    ensures Shr(w, k + 1) == Shr(w, k) / 2
    decreases k
  {
    if k > 0 { ShrHalf(w / 2, k - 1); }
  }

  lemma {:induction false} ShrZero(w: nat, k: nat)
    ensures Shr(w, k) == 0 <==> w < Shl1(k)
    decreases k
  {
    if k > 0 { ShrZero(w / 2, k - 1); }
  }

  lemma DivDiv(w: nat, d: nat)
    requires d >= 1
    ensures w / (2 * d) == w / 2 / d
  {
    var q, r := w / (2 * d), w % (2 * d);
    assert w == 2 * d * q + r;
    assert w / 2 == d * q + r / 2;
    assert r / 2 < d;
    DivIs(w / 2, d, q, r / 2);
  }

  lemma MulAtLeast(d: nat, k: nat)
    requires k >= 1
    ensures d * k >= d
  {}

  lemma DivIs(x: nat, d: nat, q: nat, r: nat)
    requires d >= 1 && x == d * q + r && r < d
    ensures x / d == q
  {
    var p, e := x / d, x % d;
    assert d * p + e == d * q + r;
    assert d * (p - q) == r - e;
    if p - q >= 1 { MulAtLeast(d, p - q); } else if q - p >= 1 { MulAtLeast(d, q - p); }
  }

  // the low n bits of w
  function Low(w: nat, n: nat): nat
    decreases n
  {
    if n == 0 then 0 else w % 2 + 2 * Low(w / 2, n - 1)
  }

  lemma {:induction false} LowKeeps(w: nat, i: nat, n: nat)
    requires i >= n
    ensures Low(SetBit(w, i), n) == Low(w, n) && Low(ClearBit(w, i), n) == Low(w, n)
    decreases n
  {
    if n > 0 {
      LowKeeps(w / 2, i - 1, n - 1);
      SetUnfold(w, i);
      ClearUnfold(w, i);
    }
  }

  lemma SetUnfold(w: nat, i: nat)
    requires i >= 1
    ensures SetBit(w, i) / 2 == SetBit(w / 2, i - 1) && SetBit(w, i) % 2 == w % 2
  {}

  lemma ClearUnfold(w: nat, i: nat)
    requires i >= 1
    ensures ClearBit(w, i) / 2 == ClearBit(w / 2, i - 1) && ClearBit(w, i) % 2 == w % 2
  {}

  // w & 15
  lemma Low4(w: nat)
    ensures Low(w, 4) == w % 16
  {
    Low3(w / 2);
    assert Low(w, 4) == w % 2 + 2 * Low(w / 2, 3);
  }

  lemma Low3(w: nat)
    ensures Low(w, 3) == w % 8
  {
    var b := w / 2;
    assert Low(b / 2, 1) == b / 2 % 2;
    assert Low(b, 2) == b % 2 + 2 * Low(b / 2, 1) == b % 4;
    assert Low(w, 3) == w % 2 + 2 * Low(b, 2);
  }

  // changing bit 4 or above leaves w & 15
  lemma LowKept(w: nat, i: nat)
    requires i >= 4
    ensures SetBit(w, i) % 16 == w % 16 && ClearBit(w, i) % 16 == w % 16
  {
    LowKeeps(w, i, 4);
    Low4(w);
    Low4(SetBit(w, i));
    Low4(ClearBit(w, i));
  }

  // ngx_align, ngx_align_ptr
  function Align(x: nat, a: nat): (r: nat)
    requires a >= 1
    ensures x <= r < x + a
  {
    (x + a - 1) / a * a
  }
}
