// Bitmaps of the chunk pages of src/core/ngx_slab.c.
module SlabChunks {
  import opened Bits
  import opened SlabPool
  import opened SlabTable

  // the bit of chunk c in the slab word of pages with exact or big chunks
  function SlabBit(shift: nat, c: nat): nat { if shift == EXACT_SHIFT then c else 32 + c }

  ghost function MarkedTable(d: Table, i: nat, shift: nat, c: nat): Table
    requires At(i) in d
  {
    if shift < EXACT_SHIFT then d else d[At(i) := d[At(i)].(slab := SetBit(d[At(i)].slab, SlabBit(shift, c)))]
  }

  ghost function MarkedWords(w: seq<nat>, i: nat, shift: nat, c: nat): seq<nat>
    requires shift < EXACT_SHIFT ==> 512 * i + c / 64 < |w|
  {
    if shift < EXACT_SHIFT then w[512 * i + c / 64 := SetBit(w[512 * i + c / 64], c % 64)] else w
  }

  ghost function ClearedTable(d: Table, i: nat, shift: nat, c: nat): Table
    requires At(i) in d
  {
    if shift < EXACT_SHIFT then d else d[At(i) := d[At(i)].(slab := ClearBit(d[At(i)].slab, SlabBit(shift, c)))]
  }

  ghost function ClearedWords(w: seq<nat>, i: nat, shift: nat, c: nat): seq<nat>
    requires shift < EXACT_SHIFT ==> 512 * i + c / 64 < |w|
  {
    if shift < EXACT_SHIFT then w[512 * i + c / 64 := ClearBit(w[512 * i + c / 64], c % 64)] else w
  }

  lemma MarkedBits(d: Table, w: seq<nat>, i: nat, shift: nat, c: nat, e: nat)
    requires ShiftOk(shift) && At(i) in d && (shift < EXACT_SHIFT ==> 512 * i + c / 64 < |w| && 512 * i + e / 64 < |w|)
    ensures Busy(MarkedTable(d, i, shift, c), MarkedWords(w, i, shift, c), i, shift, e) <==>
        e == c || Busy(d, w, i, shift, e)
  {
    if shift < EXACT_SHIFT {
      SetBitBits(w[512 * i + c / 64], c % 64, e % 64);
    } else {
      SetBitBits(d[At(i)].slab, SlabBit(shift, c), SlabBit(shift, e));
    }
  }

  lemma ClearedBits(d: Table, w: seq<nat>, i: nat, shift: nat, c: nat, e: nat)
    requires ShiftOk(shift) && At(i) in d && (shift < EXACT_SHIFT ==> 512 * i + c / 64 < |w| && 512 * i + e / 64 < |w|)
    ensures Busy(ClearedTable(d, i, shift, c), ClearedWords(w, i, shift, c), i, shift, e) <==>
        e != c && Busy(d, w, i, shift, e)
  {
    if shift < EXACT_SHIFT {
      ClearBitBits(w[512 * i + c / 64], c % 64, e % 64);
    } else {
      ClearBitBits(d[At(i)].slab, SlabBit(shift, c), SlabBit(shift, e));
    }
  }

  // marking and clearing keep the form of the slab word
  lemma SlabWordKept(slab: nat, shift: nat, c: nat)
    requires ShiftOk(shift) && SlabOk(slab, shift) && c < Count(shift) && shift >= EXACT_SHIFT
    ensures SlabOk(SetBit(slab, SlabBit(shift, c)), shift) && SlabOk(ClearBit(slab, SlabBit(shift, c)), shift)
  {
    ChunkFacts(shift);
    ClearBitBound(slab, SlabBit(shift, c));
    if shift == EXACT_SHIFT {
      SetBitBound(slab, c, 64);
    } else {
      SetBitBound(slab, 32 + c, 32 + Count(shift));
      LowKept(slab, 32 + c);
    }
  }

  // --- when a page is full -------------------------------------------------------------

  // the tests of lines 236-243, 277 and 319
  ghost predicate LooksFull(d: Table, w: seq<nat>, i: nat, shift: nat)
    requires ShiftOk(shift) && At(i) in d && 512 * i + 512 <= |w|
  {
    if shift < EXACT_SHIFT then forall n: nat :: n < Count(shift) / 64 ==> Bitmap(w, i, n) == NGX_SLAB_BUSY
    else if shift == EXACT_SHIFT then d[At(i)].slab == NGX_SLAB_BUSY
    else d[At(i)].slab / MAP_UNIT == Shl1(Count(shift)) - 1
  }

  lemma Powers()
    ensures Shl1(64) == WORD && Shl1(32) == MAP_UNIT
  {
    assert Shl1(8) == 256;
    Shl1Sum(8, 8); Shl1Sum(16, 16); Shl1Sum(32, 32);
  }

  // the upper half of the slab word of a page of big chunks
  lemma MapBits(slab: nat, shift: nat, c: nat)
    requires ShiftOk(shift) && shift > EXACT_SHIFT && SlabOk(slab, shift)
    ensures slab / MAP_UNIT < Shl1(Count(shift)) && Bit(slab / MAP_UNIT, c) == Bit(slab, 32 + c)
  {
    Powers();
    ShiftedBits(slab, 32, c);
    ShrIsDiv(slab, 32);
    Shl1Sum(32, Count(shift));
    DivBelow(slab, MAP_UNIT, Shl1(Count(shift)));
  }

  lemma DivBelow(x: nat, d: nat, q: nat)
    requires d >= 1 && x < d * q
    ensures x / d < q
  {
    if x / d >= q { MulGrows(d, q, x / d); }
  }

  lemma MulGrows(d: nat, q: nat, r: nat)
    requires q <= r
    ensures d * q <= d * r
  {}

  lemma FullTest(a: Pool, d: Table, w: seq<nat>, i: nat)
    requires i < |a.kinds| && i < |a.used| && a.kinds[i].Chunks? && ShiftOk(a.kinds[i].shift) && At(i) in d
    requires 512 * i + 512 <= |w|
    requires SlabOk(d[At(i)].slab, a.kinds[i].shift) && ChunksOk(a, d, w, i, a.kinds[i].shift)
    requires forall j :: 0 <= j < |w| ==> w[j] < WORD
    ensures LooksFull(d, w, i, a.kinds[i].shift) <==> Full(a, i)
  {
    var shift := a.kinds[i].shift;
    ChunkFacts(shift);
    Powers();
    if shift < EXACT_SHIFT {
      SmallFull(a, d, w, i, shift);
    } else if shift == EXACT_SHIFT {
      AllBits(d[At(i)].slab, 64);
      forall c: nat | c < 64 ensures Bit(d[At(i)].slab, c) <==> c in a.used[i] {
        assert Busy(d, w, i, shift, c) <==> c < Reserved(shift) || c in a.used[i];
      }
    } else {
      var slab := d[At(i)].slab;
      MapBits(slab, shift, 0);
      AllBits(slab / MAP_UNIT, Count(shift));
      forall c: nat | c < Count(shift) ensures Bit(slab / MAP_UNIT, c) <==> c in a.used[i] {
        MapBits(slab, shift, c);
        assert Busy(d, w, i, shift, c) <==> c < Reserved(shift) || c in a.used[i];
      }
    }
  }

  lemma SmallFull(a: Pool, d: Table, w: seq<nat>, i: nat, shift: nat)
    requires i < |a.kinds| && i < |a.used| && a.kinds[i] == Chunks(shift) && ShiftOk(shift) && shift < EXACT_SHIFT
    requires At(i) in d && 512 * i + 512 <= |w| && ChunksOk(a, d, w, i, shift)
    requires forall j :: 0 <= j < |w| ==> w[j] < WORD
    ensures LooksFull(d, w, i, shift) <==> Full(a, i)
  {
    ChunkFacts(shift);
    Powers();
    if LooksFull(d, w, i, shift) {
      forall c: nat | Reserved(shift) <= c < Count(shift) ensures c in a.used[i] {
        assert Bitmap(w, i, c / 64) == NGX_SLAB_BUSY;
        AllBits(Bitmap(w, i, c / 64), 64);
        assert Busy(d, w, i, shift, c);
      }
    }
    if Full(a, i) {
      forall n: nat | n < Count(shift) / 64 ensures Bitmap(w, i, n) == NGX_SLAB_BUSY {
        var v := Bitmap(w, i, n);
        forall b: nat | b < 64 ensures Bit(v, b) {
          assert (64 * n + b) / 64 == n && (64 * n + b) % 64 == b;
          assert Busy(d, w, i, shift, 64 * n + b);
        }
        AllBits(v, 64);
      }
    }
  }

  // --- when a page is empty --------------------------------------------------------------

  // the tests of lines 497-507, 541 and 580; bitmap[0] & ~((1 << n) - 1) is bitmap[0] >> n
  ghost predicate LooksEmpty(d: Table, w: seq<nat>, i: nat, shift: nat)
    requires ShiftOk(shift) && At(i) in d && 512 * i + 512 <= |w|
  {
    if shift < EXACT_SHIFT
          then Shr(Bitmap(w, i, 0), Reserved(shift)) == 0 &&
               forall n: nat :: 1 <= n < Count(shift) / 64 ==> Bitmap(w, i, n) == 0
    else if shift == EXACT_SHIFT then d[At(i)].slab == 0
    else d[At(i)].slab / MAP_UNIT == 0
  }

  lemma EmptyTest(a: Pool, d: Table, w: seq<nat>, i: nat)
    requires i < |a.kinds| && i < |a.used| && a.kinds[i].Chunks? && ShiftOk(a.kinds[i].shift) && At(i) in d
    requires 512 * i + 512 <= |w|
    requires SlabOk(d[At(i)].slab, a.kinds[i].shift) && ChunksOk(a, d, w, i, a.kinds[i].shift)
    requires forall c :: c in a.used[i] ==> Reserved(a.kinds[i].shift) <= c < Count(a.kinds[i].shift)
    requires forall j :: 0 <= j < |w| ==> w[j] < WORD
    ensures LooksEmpty(d, w, i, a.kinds[i].shift) <==> a.used[i] == {}
  {
    var shift := a.kinds[i].shift;
    ChunkFacts(shift);
    Powers();
    if shift < EXACT_SHIFT {
      SmallEmpty(a, d, w, i, shift);
    } else if shift == EXACT_SHIFT {
      NoBits(d[At(i)].slab, 64);
      forall c: nat | c < 64 ensures Bit(d[At(i)].slab, c) <==> c in a.used[i] {
        assert Busy(d, w, i, shift, c) <==> c < Reserved(shift) || c in a.used[i];
      }
    } else {
      var slab := d[At(i)].slab;
      MapBits(slab, shift, 0);
      NoBits(slab / MAP_UNIT, Count(shift));
      forall c: nat | c < Count(shift) ensures Bit(slab / MAP_UNIT, c) <==> c in a.used[i] {
        MapBits(slab, shift, c);
        assert Busy(d, w, i, shift, c) <==> c < Reserved(shift) || c in a.used[i];
      }
    }
  }

  lemma {:induction false} ShrBelow(w: nat, k: nat)
    ensures Shr(w, k) <= w
    decreases k
  {
    if k > 0 { ShrBelow(w / 2, k - 1); }
  }

  lemma SmallEmpty(a: Pool, d: Table, w: seq<nat>, i: nat, shift: nat)
    requires i < |a.kinds| && i < |a.used| && a.kinds[i] == Chunks(shift) && ShiftOk(shift) && shift < EXACT_SHIFT
    requires At(i) in d && 512 * i + 512 <= |w| && ChunksOk(a, d, w, i, shift)
    requires forall c :: c in a.used[i] ==> Reserved(shift) <= c < Count(shift)
    requires forall j :: 0 <= j < |w| ==> w[j] < WORD
    ensures LooksEmpty(d, w, i, shift) <==> a.used[i] == {}
  {
    if LooksEmpty(d, w, i, shift) {
      EmptyIfZero(a, d, w, i, shift);
    }
    if a.used[i] == {} {
      ZeroIfEmpty(a, d, w, i, shift);
    }
  }

  // the chunk page i and its bitmap
  ghost predicate SmallPage(a: Pool, d: Table, w: seq<nat>, i: nat, shift: nat) {
    && i < |a.kinds| && i < |a.used| && a.kinds[i] == Chunks(shift) && ShiftOk(shift) && shift < EXACT_SHIFT
    && At(i) in d && 512 * i + 512 <= |w| && ChunksOk(a, d, w, i, shift)
    && (forall c :: c in a.used[i] ==> Reserved(shift) <= c < Count(shift)) && forall j :: 0 <= j < |w| ==> w[j] < WORD
  }

  lemma EmptyIfZero(a: Pool, d: Table, w: seq<nat>, i: nat, shift: nat)
    requires SmallPage(a, d, w, i, shift) && LooksEmpty(d, w, i, shift)
    ensures a.used[i] == {}
  {
    ChunkFacts(shift);
    Powers();
    var r, v0 := Reserved(shift), Bitmap(w, i, 0);
    ShrIsDiv(v0, r);
    ShrBelow(v0, r);
    NoBits(Shr(v0, r), 64);
    forall c | c in a.used[i] ensures false {
      assert Busy(d, w, i, shift, c);
      HighBits(0, 0, c % 64);
      if c < 64 { ShiftedBits(v0, r, c - r); }
    }
  }

  lemma ZeroIfEmpty(a: Pool, d: Table, w: seq<nat>, i: nat, shift: nat)
    requires SmallPage(a, d, w, i, shift) && a.used[i] == {}
    ensures LooksEmpty(d, w, i, shift)
  {
    ChunkFacts(shift);
    Powers();
    var r, v0 := Reserved(shift), Bitmap(w, i, 0);
    var v := Shr(v0, r);
    ShrIsDiv(v0, r);
    ShrBelow(v0, r);
    forall b: nat | b < 64 ensures !Bit(v, b) {
      ShiftedBits(v0, r, b);
      if r + b < 64 { assert !Busy(d, w, i, shift, r + b); } else { HighBits(v0, 64, r + b); }
    }
    NoBits(v, 64);
    forall n: nat | 1 <= n < Count(shift) / 64 ensures Bitmap(w, i, n) == 0 { BlankWord(a, d, w, i, shift, n); }
  }

  lemma BlankWord(a: Pool, d: Table, w: seq<nat>, i: nat, shift: nat, n: nat)
    requires SmallPage(a, d, w, i, shift) && a.used[i] == {} && 1 <= n < Count(shift) / 64
    ensures Bitmap(w, i, n) == 0
  {
    ChunkFacts(shift);
    Powers();
    var u := Bitmap(w, i, n);
    forall b: nat | b < 64 ensures !Bit(u, b) {
      assert (64 * n + b) / 64 == n && (64 * n + b) % 64 == b;
      assert !Busy(d, w, i, shift, 64 * n + b);
    }
    NoBits(u, 64);
  }

  // --- a fresh chunk page ------------------------------------------------------------------

  // lines 347-366, 387 and 401
  ghost function FreshSlab(shift: nat): nat {
    if shift < EXACT_SHIFT then shift else if shift == EXACT_SHIFT then 1 else MAP_UNIT + shift
  }

  ghost predicate FreshWords(w: seq<nat>, w': seq<nat>, i: nat, shift: nat)
    requires ShiftOk(shift)
  {
    && |w'| == |w| && 512 * i + 512 <= |w|
    && (forall j :: 0 <= j < |w| && !(512 * i <= j < 512 * i + 512) ==> w'[j] == w[j])
    && (shift < EXACT_SHIFT ==> Bitmap(w', i, 0) == 2 * Shl1(Reserved(shift)) - 1)
    && (shift < EXACT_SHIFT ==> forall n: nat :: 1 <= n < Count(shift) / 64 ==> Bitmap(w', i, n) == 0)
  }

  lemma FreshBits(d: Table, w: seq<nat>, w': seq<nat>, i: nat, shift: nat, c: nat)
    requires ShiftOk(shift) && At(i) in d && d[At(i)].slab == FreshSlab(shift) && FreshWords(w, w', i, shift)
    requires c < Count(shift)
    ensures Busy(d, w', i, shift, c) <==> c <= Reserved(shift)
  {
    ChunkFacts(shift);
    if shift < EXACT_SHIFT {
      FreshSmall(w, w', i, shift, c);
    } else if shift == EXACT_SHIFT {
      LowOnes(1, c);
    } else {
      FreshMap(shift, c);
    }
  }

  lemma FreshSmall(w: seq<nat>, w': seq<nat>, i: nat, shift: nat, c: nat)
    requires ShiftOk(shift) && shift < EXACT_SHIFT && FreshWords(w, w', i, shift) && c < Count(shift)
    ensures Bit(Bitmap(w', i, c / 64), c % 64) <==> c <= Reserved(shift)
  {
    ChunkFacts(shift);
    if c < 64 {
      LowOnes(Reserved(shift) + 1, c);
    } else {
      assert Bitmap(w', i, c / 64) == 0;
      HighBits(0, 0, c % 64);
    }
  }

  lemma FreshMap(shift: nat, c: nat)
    requires ShiftOk(shift) && shift > EXACT_SHIFT && c < Count(shift)
    ensures Bit(MAP_UNIT + shift, 32 + c) <==> c == 0
  {
    Powers();
    ShiftedBits(MAP_UNIT + shift, 32, c);
    ShrIsDiv(MAP_UNIT + shift, 32);
    assert (MAP_UNIT + shift) / MAP_UNIT == 1;
    LowOnes(1, c);
  }

  lemma FreshSlabOk(shift: nat)
    requires ShiftOk(shift) && shift > EXACT_SHIFT
    ensures SlabOk(FreshSlab(shift), shift)
  {
    ChunkFacts(shift);
    Powers();
    Shl1Sum(32, Count(shift));
    assert Shl1(Count(shift)) >= 2 by { MulGrows(2, 1, Shl1(Count(shift) - 1)); }
    MulGrows(MAP_UNIT, 2, Shl1(Count(shift)));
  }
}
