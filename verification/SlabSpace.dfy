// The bytes of src/core/ngx_slab.c that nobody has: a page that is cut into chunks counts as
// full exactly if its bytes beside the live blocks and the bitmap do not make up a chunk.
module SlabSpace {
  import opened Bits
  import opened SlabPool

  // a bit for each chunk, at the head of a page of chunks below 64 bytes
  function BitmapBytes(shift: nat): nat
    requires ShiftOk(shift)
  {
    if shift < EXACT_SHIFT then Count(shift) / 8 else 0
  }

  ghost predicate Covers(a: Pool, b: Block, y: int) { Offset(a, b) <= y < Offset(a, b) + Extent(a, b) }

  // byte y of page i lies neither in its bitmap nor in a live block
  ghost predicate Idle(a: Pool, i: nat, shift: nat, y: int)
    requires ShiftOk(shift)
  {
    && PAGE_SIZE * i + BitmapBytes(shift) <= y < PAGE_SIZE * i + PAGE_SIZE
    && forall b {:trigger Covers(a, b, y)} :: b in a.sizes ==> !Covers(a, b, y)
  }

  ghost function Unused(a: Pool, i: nat, shift: nat): set<int>
    requires ShiftOk(shift)
  {
    set y {:trigger Idle(a, i, shift, y)} | PAGE_SIZE * i <= y < PAGE_SIZE * i + PAGE_SIZE && Idle(a, i, shift, y)
  }

  // they are fewer than a chunk
  ghost predicate Spent(a: Pool, i: nat, shift: nat)
    requires ShiftOk(shift)
  {
    |Unused(a, i, shift)| < Shl1(shift)
  }

  predicate From(lo: int, y: int, hi: int) { lo <= y < hi }

  ghost function Range(lo: int, hi: int): set<int> {
    set y {:trigger From(lo, y, hi)} | lo <= y < hi && From(lo, y, hi)
  }

  lemma {:induction false} RangeSize(lo: int, hi: int)
    requires lo <= hi
    ensures |Range(lo, hi)| == hi - lo
    decreases hi - lo
  {
    if lo < hi {
      RangeSize(lo, hi - 1);
      forall y | true ensures y in Range(lo, hi) <==> y in Range(lo, hi - 1) + {hi - 1} {
        assert From(lo, y, hi) <==> From(lo, y, hi - 1) || y == hi - 1;
      }
      assert hi - 1 !in Range(lo, hi - 1);
      assert Range(lo, hi) == Range(lo, hi - 1) + {hi - 1};
    }
  }

  lemma {:induction false} SubsetSize<T>(x: set<T>, y: set<T>)
    requires x <= y
    ensures |x| <= |y|
  {
    if e :| e in x {
      SubsetSize(x - {e}, y - {e});
      assert |x| == |x - {e}| + 1 && |y| == |y - {e}| + 1;
    }
  }

  // Of the chunks that hold the bitmap none could do without: they are as few as possible.
  lemma Tight(shift: nat)
    requires ShiftOk(shift)
    ensures Reserved(shift) * Shl1(shift) - BitmapBytes(shift) < Shl1(shift)
    ensures BitmapBytes(shift) <= Reserved(shift) * Shl1(shift)
  {
    assert Shl1(3) == 8 && Shl1(4) == 16 && Shl1(5) == 32 && Shl1(6) == 64;
    assert Shl1(7) == 128 && Shl1(8) == 256 && Shl1(9) == 512 && Shl1(1) == 2 && Shl1(2) == 4;
  }

  // the chunk of a byte
  lemma ChunkOf(d: nat, s: nat, r: nat, n: nat)
    requires s > 0 && r * s <= d < n * s
    ensures r <= d / s < n && (d / s) * s <= d < (d / s) * s + s
  {
    var c := d / s;
    assert d == c * s + d % s;
    if c < r { Step(c, r, s); }
    if c >= n { Steps(n, c, s); }
  }

  lemma Taken(a: Pool, i: nat, shift: nat, y: int)
    requires Inv(a) && Full(a, i) && a.kinds[i] == Chunks(shift)
    requires PAGE_SIZE * i + Reserved(shift) * Shl1(shift) <= y < PAGE_SIZE * i + PAGE_SIZE
    ensures !Idle(a, i, shift, y)
  {
    ChunkFacts(shift);
    ChunkOf(y - PAGE_SIZE * i, Shl1(shift), Reserved(shift), Count(shift));
    var b := Block(i, (y - PAGE_SIZE * i) / Shl1(shift));
    assert Live(a, b) && b in a.sizes && Covers(a, b, y);
  }

  lemma FullMeans(a: Pool, i: nat, shift: nat)
    requires Inv(a) && Full(a, i) && a.kinds[i] == Chunks(shift)
    ensures Spent(a, i, shift)
  {
    var head, s, r := PAGE_SIZE * i, Shl1(shift), Reserved(shift);
    Tight(shift);
    forall y | y in Unused(a, i, shift) ensures y in Range(head + BitmapBytes(shift), head + r * s) {
      assert Idle(a, i, shift, y);
      if y >= head + r * s { Taken(a, i, shift, y); }
      assert From(head + BitmapBytes(shift), y, head + r * s);
    }
    RangeSize(head + BitmapBytes(shift), head + r * s);
    SubsetSize(Unused(a, i, shift), Range(head + BitmapBytes(shift), head + r * s));
  }

  // two chunks of a page
  lemma ChunksDiffer(s: nat, c: nat, d: nat)
    requires c != d
    ensures c * s + s <= d * s || d * s + s <= c * s
  {
    if c < d { Step(c, d, s); } else { Step(d, c, s); }
  }

  // a block of another page lies before or after page i
  lemma OtherPage(a: Pool, i: nat, b: Block)
    requires Inv(a) && i < |a.kinds| && a.kinds[i].Chunks? && Live(a, b) && b.page != i
    ensures Offset(a, b) + Extent(a, b) <= PAGE_SIZE * i || PAGE_SIZE * i + PAGE_SIZE <= Offset(a, b)
  {
    assert KindOk(a.kinds, b.page) && KindOk(a.kinds, i);
    Within(a, b);
  }

  lemma SamePage(a: Pool, i: nat, shift: nat, c: nat, b: Block)
    requires i < |a.kinds| && a.kinds[i] == Chunks(shift) && b.page == i && b.chunk != c
    ensures var x := PAGE_SIZE * i + c * Shl1(shift);
      Offset(a, b) + Extent(a, b) <= x || x + Shl1(shift) <= Offset(a, b)
  {
    ChunksDiffer(Shl1(shift), c, b.chunk);
  }

  // no live block reaches into the chunk at x, which is not handed out
  lemma Uncovered(a: Pool, i: nat, shift: nat, c: nat, x: nat, b: Block)
    requires Inv(a) && i < |a.kinds| && i < |a.used| && a.kinds[i] == Chunks(shift)
    requires x == PAGE_SIZE * i + c * Shl1(shift)
    requires c !in a.used[i] && b in a.sizes && x + Shl1(shift) <= PAGE_SIZE * i + PAGE_SIZE
    ensures Offset(a, b) + Extent(a, b) <= x || x + Shl1(shift) <= Offset(a, b)
  {
    assert Live(a, b);
    if b.page == i { SamePage(a, i, shift, c, b); } else { OtherPage(a, i, b); }
  }

  lemma RoomMeans(a: Pool, i: nat, shift: nat)
    requires Inv(a) && i < |a.kinds| && a.kinds[i] == Chunks(shift) && ShiftOk(shift) && !Full(a, i)
    ensures !Spent(a, i, shift)
  {
    var head, s := PAGE_SIZE * i, Shl1(shift);
    var c :| Reserved(shift) <= c < Count(shift) && c !in a.used[i];
    Tight(shift);
    ChunkFacts(shift);
    Steps(Reserved(shift), c, s);
    Step(c, Count(shift), s);
    forall y | y in Range(head + c * s, head + c * s + s) ensures y in Unused(a, i, shift) {
      assert From(head + c * s, y, head + c * s + s);
      forall b | b in a.sizes ensures !Covers(a, b, y) { Uncovered(a, i, shift, c, head + c * s, b); }
      assert Idle(a, i, shift, y);
    }
    RangeSize(head + c * s, head + c * s + s);
    SubsetSize(Range(head + c * s, head + c * s + s), Unused(a, i, shift));
  }

  // A page has no chunk left exactly if its bytes beside the live blocks and the bitmap are
  // fewer than a chunk: no chunk is lost to the bitmap that does not hold a part of it.
  lemma FullIffSpent(a: Pool, i: nat, shift: nat)
    requires Inv(a) && i < |a.kinds| && a.kinds[i] == Chunks(shift) && ShiftOk(shift)
    ensures Full(a, i) <==> Spent(a, i, shift)
  {
    if Full(a, i) { FullMeans(a, i, shift); } else { RoomMeans(a, i, shift); }
  }
}
