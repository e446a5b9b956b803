// The bookkeeping behind src/core/ngx_slab.c, apart from its representation: which
// pages are free, which are allocated whole, and which are cut into chunks.
// 64-bit words, 4096-byte pages, min_shift 3.
module SlabPool {
  import opened Bits
  import opened Sequences

  const PAGE_SIZE: nat := 4096
  const MIN_SHIFT: nat := 3
  const EXACT_SHIFT: nat := 6       // ngx_slab_exact_shift: 64 chunks of 64 bytes
  const MAX_SHIFT: nat := 11        // below ngx_slab_max_size = 2048 bytes

  // what a page is used for
  datatype Kind = FreeRun(len: nat) | FreeTail(head: nat) | Run(len: nat) | RunTail(head: nat) | Chunks(shift: nat)

  // A page, and a chunk in it; a page run is named by its first page and chunk 0.
  datatype Block = Block(page: nat, chunk: nat)

  // used: the chunks handed out in each page; freeRuns: the list pool->free;
  // partial: the slot lists; sizes: what was asked for each live block
  datatype Pool = Pool(kinds: seq<Kind>, used: seq<set<nat>>, freeRuns: seq<nat>, partial: seq<seq<nat>>,
      sizes: map<Block, nat>)

  predicate ShiftOk(shift: nat) { MIN_SHIFT <= shift <= MAX_SHIFT }

  // chunks in a page: 1 << (ngx_pagesize_shift - shift)
  function Count(shift: nat): nat
    requires ShiftOk(shift)
  {
    Shl1(12 - shift)
  }

  // chunks at the head of a page that hold its bitmap
  function Reserved(shift: nat): nat
    requires ShiftOk(shift)
  {
    if shift >= EXACT_SHIFT then 0
    else var n := Count(shift) / 8 / Shl1(shift); if n == 0 then 1 else n
  }

  lemma ChunkFacts(shift: nat)
    requires ShiftOk(shift)
    ensures Shl1(shift) * Count(shift) == PAGE_SIZE && Reserved(shift) + 2 <= Count(shift) <= 512 && Shl1(shift) >= 8
    ensures shift < EXACT_SHIFT ==> Count(shift) % 64 == 0 && Count(shift) >= 128 && 1 <= Reserved(shift) <= 8
    ensures shift < EXACT_SHIFT ==> Reserved(shift) * Shl1(shift) >= Count(shift) / 8
    ensures shift == EXACT_SHIFT ==> Count(shift) == 64
    ensures shift > EXACT_SHIFT ==> Count(shift) <= 32
  {
    assert Shl1(3) == 8 && Shl1(4) == 16 && Shl1(5) == 32 && Shl1(6) == 64;
    assert Shl1(7) == 128 && Shl1(8) == 256 && Shl1(9) == 512 && Shl1(1) == 2 && Shl1(2) == 4;
    assert Shl1(10) == 1024 && Shl1(11) == 2048;
  }

  // --- the invariant ---------------------------------------------------------------

  ghost predicate KindOk(kinds: seq<Kind>, i: nat)
    requires i < |kinds|
  {
    match kinds[i]
    case FreeRun(len) => len >= 1 && i + len <= |kinds| && forall j :: i < j < i + len ==> kinds[j] == FreeTail(i)
    case Run(len) => len >= 1 && i + len <= |kinds| && forall j :: i < j < i + len ==> kinds[j] == RunTail(i)
    case FreeTail(h) => h < i && kinds[h].FreeRun? && i < h + kinds[h].len
    case RunTail(h) => h < i && kinds[h].Run? && i < h + kinds[h].len
    case Chunks(shift) => ShiftOk(shift)
  }

  // free runs, allocated runs and chunk pages partition the pages
  ghost predicate Tiled(kinds: seq<Kind>) {
    forall i {:trigger KindOk(kinds, i)} :: 0 <= i < |kinds| ==> KindOk(kinds, i)
  }

  ghost predicate UsedOk(a: Pool, i: nat) {
    && i < |a.kinds| && i < |a.used|
    && if a.kinds[i].Chunks? && ShiftOk(a.kinds[i].shift)
       then a.used[i] != {} && forall c :: c in a.used[i] ==> Reserved(a.kinds[i].shift) <= c < Count(a.kinds[i].shift)
       else a.used[i] == {}
  }

  ghost predicate Full(a: Pool, i: nat) {
    && i < |a.kinds| && i < |a.used| && a.kinds[i].Chunks? && ShiftOk(a.kinds[i].shift)
    && forall c :: Reserved(a.kinds[i].shift) <= c < Count(a.kinds[i].shift) ==> c in a.used[i]
  }

  // pool->free lists exactly the free runs
  ghost predicate FreeListOk(a: Pool) {
    NoDup(a.freeRuns) && forall i: nat :: i in a.freeRuns <==> i < |a.kinds| && a.kinds[i].FreeRun?
  }

  // slot k lists exactly the pages of its class with a used and a free chunk
  ghost predicate SlotOk(a: Pool, k: nat) {
    k < |a.partial| && NoDup(a.partial[k])
    && forall i: nat {:trigger i in a.partial[k]} :: i in a.partial[k] <==>
        i < |a.kinds| && a.kinds[i] == Chunks(k + MIN_SHIFT) && !Full(a, i)
  }

  ghost predicate Live(a: Pool, b: Block) {
    && b.page < |a.kinds| && b.page < |a.used|
    && ((a.kinds[b.page].Run? && b.chunk == 0) || (a.kinds[b.page].Chunks? && b.chunk in a.used[b.page]))
  }

  // the bytes of a block, from the start of the page area
  ghost function Offset(a: Pool, b: Block): nat {
    PAGE_SIZE * b.page +
      if b.page < |a.kinds| && a.kinds[b.page].Chunks? then b.chunk * Shl1(a.kinds[b.page].shift) else 0
  }

  ghost function Extent(a: Pool, b: Block): nat {
    if b.page >= |a.kinds| then 0
    else match a.kinds[b.page]
      case Run(len) => len * PAGE_SIZE
      case Chunks(shift) => Shl1(shift)
      case _ => 0
  }

  ghost predicate SizesOk(a: Pool) {
    && (forall b {:trigger b in a.sizes} :: b in a.sizes <==> Live(a, b))
    && (forall b {:trigger a.sizes[b]} :: b in a.sizes ==> a.sizes[b] <= Extent(a, b))
  }

  ghost predicate Inv(a: Pool) {
    && |a.used| == |a.kinds| && |a.partial| == 9
    && Tiled(a.kinds) && (forall i {:trigger UsedOk(a, i)} :: 0 <= i < |a.kinds| ==> UsedOk(a, i))
    && FreeListOk(a) && (forall k {:trigger SlotOk(a, k)} :: 0 <= k < 9 ==> SlotOk(a, k)) && SizesOk(a)
  }

  // --- what the invariant means for the users of the memory ---------------------------

  // Two live allocations share no byte.
  lemma Disjoint(a: Pool, b: Block, c: Block)
    requires Inv(a) && Live(a, b) && Live(a, c) && b != c
    ensures Offset(a, b) + Extent(a, b) <= Offset(a, c) || Offset(a, c) + Extent(a, c) <= Offset(a, b)
  {
    if b.page == c.page {
      ChunksApart(a, b, c);
    } else if b.page < c.page {
      PagesApart(a, b, c);
    } else {
      PagesApart(a, c, b);
    }
  }

  lemma ChunksApart(a: Pool, b: Block, c: Block)
    requires Inv(a) && Live(a, b) && Live(a, c) && b != c && b.page == c.page
    ensures Offset(a, b) + Extent(a, b) <= Offset(a, c) || Offset(a, c) + Extent(a, c) <= Offset(a, b)
  {
    var s := Shl1(a.kinds[b.page].shift);
    if b.chunk < c.chunk { Step(b.chunk, c.chunk, s); } else { Step(c.chunk, b.chunk, s); }
  }

  lemma Step(i: nat, j: nat, s: nat)
    requires i < j
    ensures i * s + s <= j * s
  {
    Product(i, j - i, s);
    MulAtLeast(s, j - i);
  }

  lemma Product(i: nat, d: nat, s: nat)
    ensures (i + d) * s == i * s + s * d
  {}

  lemma PagesApart(a: Pool, b: Block, c: Block)
    requires Inv(a) && Live(a, b) && Live(a, c) && b.page < c.page
    ensures Offset(a, b) + Extent(a, b) <= Offset(a, c)
  {
    Within(a, b);
    assert KindOk(a.kinds, b.page) && KindOk(a.kinds, c.page);
  }

  // A live block stays in its own pages.
  lemma Within(a: Pool, b: Block)
    requires Inv(a) && Live(a, b)
    ensures PAGE_SIZE * b.page <= Offset(a, b)
    ensures Offset(a, b) + Extent(a, b)
        <= PAGE_SIZE * (b.page + if a.kinds[b.page].Run? then a.kinds[b.page].len else 1)
    ensures Offset(a, b) + Extent(a, b) <= PAGE_SIZE * |a.kinds|
  {
    assert KindOk(a.kinds, b.page) && UsedOk(a, b.page);
    if a.kinds[b.page].Chunks? {
      var shift := a.kinds[b.page].shift;
      ChunkFacts(shift);
      Step(b.chunk, Count(shift), Shl1(shift));
    }
  }

  // No live allocation overlaps the bitmap at the head of a page of small chunks.
  lemma ClearOfBitmaps(a: Pool, b: Block, p: nat)
    requires Inv(a) && Live(a, b) && p < |a.kinds| && a.kinds[p].Chunks? && ShiftOk(a.kinds[p].shift)
    requires a.kinds[p].shift < EXACT_SHIFT
    ensures var shift := a.kinds[p].shift; var head, bytes := PAGE_SIZE * p, Count(shift) / 8;
      Offset(a, b) + Extent(a, b) <= head || head + bytes <= Offset(a, b)
  {
    var shift := a.kinds[p].shift;
    ChunkFacts(shift);
    Within(a, b);
    assert KindOk(a.kinds, b.page) && KindOk(a.kinds, p) && UsedOk(a, b.page);
    if b.page == p {
      Steps(Reserved(shift), b.chunk, Shl1(shift));
    }
  }

  lemma Steps(i: nat, j: nat, s: nat)
    requires i <= j
    ensures i * s <= j * s
  {}

  // --- the operations -------------------------------------------------------------

  ghost function TakenKinds(kinds: seq<Kind>, i: nat, len: nat, k: nat): (r: seq<Kind>)
    ensures |r| == |kinds|
  {
    seq(|kinds|, x requires 0 <= x < |kinds| =>
      if x == i then Run(k)
      else if i < x < i + k then RunTail(i)
      else if x == i + k && k < len then FreeRun(len - k)
      else if i + k < x < i + len then FreeTail(i + k)
      else kinds[x])
  }

  // the first k pages of the free run freeRuns[j] are allocated
  ghost function TakeRun(a: Pool, j: nat, k: nat, size: nat): Pool
    requires j < |a.freeRuns| && a.freeRuns[j] < |a.kinds| && a.kinds[a.freeRuns[j]].FreeRun?
  {
    var i := a.freeRuns[j];
    var len := a.kinds[i].len;
    a.(kinds := TakenKinds(a.kinds, i, len, k),
       freeRuns := if k < len then a.freeRuns[j := i + k] else Without(a.freeRuns, j),
       sizes := a.sizes[Block(i, 0) := size])
  }

  lemma TakenTiled(kinds: seq<Kind>, i: nat, len: nat, k: nat)
    requires Tiled(kinds) && i < |kinds| && kinds[i] == FreeRun(len) && 1 <= k <= len
    ensures Tiled(TakenKinds(kinds, i, len, k))
  {
    var kinds' := TakenKinds(kinds, i, len, k);
    assert KindOk(kinds, i);
    forall x | 0 <= x < |kinds'| ensures KindOk(kinds', x) {
      assert KindOk(kinds, x);
      if !(i <= x < i + len) {
        var h := match kinds[x] case FreeTail(h) => h case RunTail(h) => h case _ => x;
        assert KindOk(kinds, h);
        assert kinds'[x] == kinds[x];
      }
    }
  }

  lemma TakeRunInv(a: Pool, j: nat, k: nat, size: nat)
    requires Inv(a) && j < |a.freeRuns| && a.freeRuns[j] < |a.kinds| && a.kinds[a.freeRuns[j]].FreeRun?
    requires 1 <= k <= a.kinds[a.freeRuns[j]].len && size <= k * PAGE_SIZE
    ensures Inv(TakeRun(a, j, k, size)) && Block(a.freeRuns[j], 0) !in a.sizes
  {
    var i := a.freeRuns[j];
    var len := a.kinds[i].len;
    var a' := TakeRun(a, j, k, size);
    TakenTiled(a.kinds, i, len, k);
    assert KindOk(a.kinds, i);
    SameChunks(a, a', i, len);
    if k < len { assert a.kinds[i + k] == FreeTail(i); }
    assert FreeListOk(a') by { TakenFreeList(a, j, k, size); }
    forall b | true ensures b in a'.sizes <==> Live(a', b) {
      assert b.page < |a.kinds| ==> KindOk(a.kinds, b.page);
      assert b in a.sizes <==> Live(a, b);
    }
    forall b | b in a'.sizes ensures a'.sizes[b] <= Extent(a', b) {
      if b != Block(i, 0) { assert b in a.sizes && a.sizes[b] <= Extent(a, b); }
    }
  }

  // pages outside i .. i + len and chunk pages stay as they are
  lemma SameChunks(a: Pool, a': Pool, i: nat, len: nat)
    requires Inv(a) && |a'.kinds| == |a.kinds| && a'.used == a.used && a'.partial == a.partial && Tiled(a'.kinds)
    requires i + len <= |a.kinds| && forall x :: 0 <= x < |a.kinds| && !(i <= x < i + len) ==> a'.kinds[x] == a.kinds[x]
    requires forall x :: i <= x < i + len ==> !a.kinds[x].Chunks? && !a'.kinds[x].Chunks?
    ensures forall x {:trigger UsedOk(a', x)} :: 0 <= x < |a'.kinds| ==> UsedOk(a', x)
    ensures forall k {:trigger SlotOk(a', k)} :: 0 <= k < 9 ==> SlotOk(a', k)
  {
    forall x | 0 <= x < |a'.kinds| ensures UsedOk(a', x) { assert UsedOk(a, x); }
    forall k | 0 <= k < 9 ensures SlotOk(a', k) {
      assert SlotOk(a, k);
      forall x: nat | true ensures x in a'.partial[k] <==>
          x < |a'.kinds| && a'.kinds[x] == Chunks(k + MIN_SHIFT) && !Full(a', x) {
        assert x < |a.kinds| ==> (Full(a, x) <==> Full(a', x));
      }
    }
  }

  lemma TakenFreeList(a: Pool, j: nat, k: nat, size: nat)
    requires Inv(a) && j < |a.freeRuns| && a.freeRuns[j] < |a.kinds| && a.kinds[a.freeRuns[j]].FreeRun?
    requires 1 <= k <= a.kinds[a.freeRuns[j]].len
    ensures FreeListOk(TakeRun(a, j, k, size))
  {
    var i := a.freeRuns[j];
    var len := a.kinds[i].len;
    var a' := TakeRun(a, j, k, size);
    assert KindOk(a.kinds, i);
    if k < len { assert a.kinds[i + k] == FreeTail(i); }
    forall x: nat | true ensures x in a'.freeRuns <==> x < |a'.kinds| && a'.kinds[x].FreeRun? {
      if x < |a.kinds| { assert KindOk(a.kinds, x); }
      if x in a.freeRuns && x != i {
        var y :| 0 <= y < |a.freeRuns| && a.freeRuns[y] == x;
        assert a'.freeRuns[if k < len || y < j then y else y - 1] == x;
      }
      if k < len { assert a'.freeRuns[j] == i + k; }
      assert x in a.freeRuns <==> x < |a.kinds| && a.kinds[x].FreeRun?;
    }
  }

  ghost function GivenKinds(kinds: seq<Kind>, i: nat, len: nat): (r: seq<Kind>)
    ensures |r| == |kinds|
  {
    seq(|kinds|, x requires 0 <= x < |kinds| =>
      if x == i then FreeRun(len) else if i < x < i + len then FreeTail(i) else kinds[x])
  }

  // a page run goes to the front of the free list
  ghost function GiveRun(a: Pool, i: nat): Pool
    requires i < |a.kinds| && a.kinds[i].Run?
  {
    a.(kinds := GivenKinds(a.kinds, i, a.kinds[i].len), freeRuns := [i] + a.freeRuns, sizes := a.sizes - {Block(i, 0)})
  }

  lemma GivenTiled(kinds: seq<Kind>, i: nat, len: nat)
    requires Tiled(kinds) && i < |kinds| && kinds[i] == Run(len)
    ensures Tiled(GivenKinds(kinds, i, len))
  {
    var kinds' := GivenKinds(kinds, i, len);
    assert KindOk(kinds, i);
    forall x | 0 <= x < |kinds'| ensures KindOk(kinds', x) {
      assert KindOk(kinds, x);
      if !(i <= x < i + len) {
        var h := match kinds[x] case FreeTail(h) => h case RunTail(h) => h case _ => x;
        assert KindOk(kinds, h);
        assert kinds'[x] == kinds[x];
      }
    }
  }

  lemma GiveRunInv(a: Pool, i: nat)
    requires Inv(a) && i < |a.kinds| && a.kinds[i].Run?
    ensures Inv(GiveRun(a, i))
  {
    var a' := GiveRun(a, i);
    GivenTiled(a.kinds, i, a.kinds[i].len);
    assert KindOk(a.kinds, i);
    SameChunks(a, a', i, a.kinds[i].len);
    forall x: nat | true ensures x in a'.freeRuns <==> x < |a'.kinds| && a'.kinds[x].FreeRun? {
      assert x in a'.freeRuns <==> x == i || x in a.freeRuns;
      assert x in a.freeRuns <==> x < |a.kinds| && a.kinds[x].FreeRun?;
    }
    forall b | true ensures b in a'.sizes <==> Live(a', b) {
      assert b in a.sizes <==> Live(a, b);
    }
  }

  // page i, just allocated whole, is cut into chunks, and the first usable one is handed out
  ghost function NewChunks(a: Pool, i: nat, shift: nat, size: nat): Pool
    requires i < |a.kinds| && i < |a.used| && ShiftOk(shift) && shift - MIN_SHIFT < |a.partial|
  {
    a.(kinds := a.kinds[i := Chunks(shift)], used := a.used[i := {Reserved(shift)}],
       partial := a.partial[shift - MIN_SHIFT := [i]],
       sizes := (a.sizes - {Block(i, 0)})[Block(i, Reserved(shift)) := size])
  }

  lemma ChunkPageTiled(kinds: seq<Kind>, i: nat, k: Kind)
    requires Tiled(kinds) && i < |kinds|
    requires (kinds[i] == Run(1) && k.Chunks? && ShiftOk(k.shift)) || (kinds[i].Chunks? && k == Run(1))
    ensures Tiled(kinds[i := k])
  {
    var kinds' := kinds[i := k];
    forall x | 0 <= x < |kinds'| ensures KindOk(kinds', x) {
      assert KindOk(kinds, x) && KindOk(kinds, i);
    }
  }

  lemma NewChunksInv(a: Pool, i: nat, shift: nat, size: nat)
    requires Inv(a) && i < |a.kinds| && a.kinds[i] == Run(1) && ShiftOk(shift) && a.partial[shift - MIN_SHIFT] == []
    requires size <= Shl1(shift)
    ensures Inv(NewChunks(a, i, shift, size)) && !Full(NewChunks(a, i, shift, size), i)
  {
    var a' := NewChunks(a, i, shift, size);
    ChunkFacts(shift);
    ChunkPageTiled(a.kinds, i, Chunks(shift));
    var r := Reserved(shift);
    assert Reserved(shift) <= r + 1 < Count(shift) && r + 1 !in a'.used[i];
    forall x | 0 <= x < |a'.kinds| ensures UsedOk(a', x) { assert UsedOk(a, x); }
    forall k | 0 <= k < 9 ensures MovesOnly(a, a', i, k) { assert SlotOk(a, k); }
    SlotsAround(a, a', i);
    NewChunksSizes(a, i, shift, size);
  }

  lemma NewChunksSizes(a: Pool, i: nat, shift: nat, size: nat)
    requires Inv(a) && i < |a.kinds| && a.kinds[i] == Run(1) && ShiftOk(shift) && a.partial[shift - MIN_SHIFT] == []
    requires size <= Shl1(shift)
    ensures var a' := NewChunks(a, i, shift, size);
            && (forall b {:trigger b in a'.sizes} :: b in a'.sizes <==> Live(a', b))
            && forall b {:trigger a'.sizes[b]} :: b in a'.sizes ==> a'.sizes[b] <= Extent(a', b)
  {
    var a' := NewChunks(a, i, shift, size);
    ChunkFacts(shift);
    forall b | true ensures b in a'.sizes <==> Live(a', b) { assert b in a.sizes <==> Live(a, b); }
    forall b | b in a'.sizes ensures a'.sizes[b] <= Extent(a', b) {
      if b != Block(i, Reserved(shift)) { assert b in a.sizes && a.sizes[b] <= Extent(a, b); }
    }
  }

  // chunk c of page i is handed out; a page without free chunks leaves its slot list
  ghost function TakeChunk(a: Pool, i: nat, c: nat, size: nat): Pool
    requires i < |a.kinds| && i < |a.used| && a.kinds[i].Chunks? && ShiftOk(a.kinds[i].shift) && |a.partial| == 9
    requires i in a.partial[a.kinds[i].shift - MIN_SHIFT]
  {
    var k := a.kinds[i].shift - MIN_SHIFT;
    var a1 := a.(used := a.used[i := a.used[i] + {c}], sizes := a.sizes[Block(i, c) := size]);
    if Full(a1, i) then a1.(partial := a.partial[k := Without(a.partial[k], IndexOf(a.partial[k], i))]) else a1
  }

  lemma TakeChunkInv(a: Pool, i: nat, c: nat, size: nat)
    requires Inv(a) && i < |a.kinds| && a.kinds[i].Chunks? && ShiftOk(a.kinds[i].shift)
    requires size <= Shl1(a.kinds[i].shift)
    requires i in a.partial[a.kinds[i].shift - MIN_SHIFT]
    requires Reserved(a.kinds[i].shift) <= c < Count(a.kinds[i].shift) && c !in a.used[i]
    ensures Inv(TakeChunk(a, i, c, size)) && Block(i, c) !in a.sizes
  {
    var shift := a.kinds[i].shift;
    var k0 := shift - MIN_SHIFT;
    var a' := TakeChunk(a, i, c, size);
    assert SlotOk(a, k0) && UsedOk(a, i);
    WithoutOne(a.partial[k0], i);
    forall x | 0 <= x < |a'.kinds| ensures UsedOk(a', x) { assert UsedOk(a, x); }
    forall k | 0 <= k < 9 ensures MovesOnly(a, a', i, k) { assert SlotOk(a, k); }
    SlotsAround(a, a', i);
    forall b | true ensures b in a'.sizes <==> Live(a', b) {
      assert b in a.sizes <==> Live(a, b);
    }
    forall b | b in a'.sizes ensures a'.sizes[b] <= Extent(a', b) {
      if b != Block(i, c) { assert b in a.sizes && a.sizes[b] <= Extent(a, b); }
    }
  }

  ghost predicate MovesOnly(a: Pool, a': Pool, i: nat, k: nat) {
    && k < |a.partial| && k < |a'.partial| && i < |a'.kinds| && NoDup(a'.partial[k])
    && (i in a'.partial[k] <==> a'.kinds[i] == Chunks(k + MIN_SHIFT) && !Full(a', i))
    && forall x :: x in a'.partial[k] && x != i <==> x in a.partial[k] && x != i
  }

  // the slot lists when only page i may have changed its membership
  lemma SlotsAround(a: Pool, a': Pool, i: nat)
    requires (forall k {:trigger SlotOk(a, k)} :: 0 <= k < 9 ==> SlotOk(a, k)) && |a.partial| == 9 && |a'.partial| == 9
    requires |a.used| == |a.kinds| && |a'.kinds| == |a.kinds| && |a'.used| == |a.used| && i < |a.kinds|
    requires forall x :: 0 <= x < |a.kinds| && x != i ==> a'.kinds[x] == a.kinds[x] && a'.used[x] == a.used[x]
    requires forall k {:trigger MovesOnly(a, a', i, k)} :: 0 <= k < 9 ==> MovesOnly(a, a', i, k)
    ensures forall k {:trigger SlotOk(a', k)} :: 0 <= k < 9 ==> SlotOk(a', k)
  {
    forall k | 0 <= k < 9 ensures SlotOk(a', k) {
      assert SlotOk(a, k) && MovesOnly(a, a', i, k);
      forall x: nat | true ensures x in a'.partial[k] <==>
          x < |a'.kinds| && a'.kinds[x] == Chunks(k + MIN_SHIFT) && !Full(a', x) {
        if x != i {
          assert x in a.partial[k] <==> x < |a.kinds| && a.kinds[x] == Chunks(k + MIN_SHIFT) && !Full(a, x);
          assert x < |a.kinds| ==> (Full(a, x) <==> Full(a', x));
        }
      }
    }
  }

  // chunk c of page i comes back, and is not the last one; a page that was full
  // goes to the front of its slot list
  ghost function GiveChunk(a: Pool, i: nat, c: nat): Pool
    requires i < |a.kinds| && i < |a.used| && a.kinds[i].Chunks? && ShiftOk(a.kinds[i].shift) && |a.partial| == 9
  {
    var k := a.kinds[i].shift - MIN_SHIFT;
    a.(used := a.used[i := a.used[i] - {c}], sizes := a.sizes - {Block(i, c)},
       partial := if Full(a, i) then a.partial[k := [i] + a.partial[k]] else a.partial)
  }

  lemma GiveChunkInv(a: Pool, i: nat, c: nat)
    requires Inv(a) && Live(a, Block(i, c)) && a.kinds[i].Chunks? && ShiftOk(a.kinds[i].shift) && a.used[i] != {c}
    ensures Inv(GiveChunk(a, i, c))
  {
    var k0 := a.kinds[i].shift - MIN_SHIFT;
    var a' := GiveChunk(a, i, c);
    assert SlotOk(a, k0) && UsedOk(a, i);
    assert Reserved(k0 + MIN_SHIFT) <= c < Count(k0 + MIN_SHIFT) && c !in a'.used[i];
    assert Full(a, i) ==> i !in a.partial[k0];
    forall x | 0 <= x < |a'.kinds| ensures UsedOk(a', x) { assert UsedOk(a, x); }
    forall k | 0 <= k < 9 ensures MovesOnly(a, a', i, k) { assert SlotOk(a, k); }
    SlotsAround(a, a', i);
    forall b | true ensures b in a'.sizes <==> Live(a', b) {
      assert b in a.sizes <==> Live(a, b);
    }
  }

  // the last chunk c of page i comes back: the page is whole again
  ghost function EmptyPage(a: Pool, i: nat, c: nat): Pool
    requires i < |a.kinds| && i < |a.used| && a.kinds[i].Chunks? && ShiftOk(a.kinds[i].shift) && |a.partial| == 9
    requires i in a.partial[a.kinds[i].shift - MIN_SHIFT]
  {
    var k := a.kinds[i].shift - MIN_SHIFT;
    a.(kinds := a.kinds[i := Run(1)], used := a.used[i := {}],
       partial := a.partial[k := Without(a.partial[k], IndexOf(a.partial[k], i))],
       sizes := (a.sizes - {Block(i, c)})[Block(i, 0) := 0])
  }

  lemma LastChunkNotFull(a: Pool, i: nat, c: nat)
    requires Inv(a) && Live(a, Block(i, c)) && a.kinds[i].Chunks? && ShiftOk(a.kinds[i].shift) && a.used[i] == {c}
    ensures !Full(a, i) && i in a.partial[a.kinds[i].shift - MIN_SHIFT]
  {
    var shift := a.kinds[i].shift;
    ChunkFacts(shift);
    assert UsedOk(a, i) && SlotOk(a, shift - MIN_SHIFT);
    var d := if c == Reserved(shift) then c + 1 else Reserved(shift);
    assert Reserved(shift) <= d < Count(shift) && d !in a.used[i];
  }

  lemma EmptyPageInv(a: Pool, i: nat, c: nat)
    requires Inv(a) && Live(a, Block(i, c)) && a.kinds[i].Chunks? && ShiftOk(a.kinds[i].shift) && a.used[i] == {c}
    ensures i in a.partial[a.kinds[i].shift - MIN_SHIFT] && Inv(EmptyPage(a, i, c))
  {
    LastChunkNotFull(a, i, c);
    var k0 := a.kinds[i].shift - MIN_SHIFT;
    var a' := EmptyPage(a, i, c);
    assert SlotOk(a, k0);
    WithoutOne(a.partial[k0], i);
    ChunkPageTiled(a.kinds, i, Run(1));
    forall x | 0 <= x < |a'.kinds| ensures UsedOk(a', x) { assert UsedOk(a, x); }
    forall k | 0 <= k < 9 ensures MovesOnly(a, a', i, k) { assert SlotOk(a, k); }
    SlotsAround(a, a', i);
    forall b | true ensures b in a'.sizes <==> Live(a', b) {
      assert b in a.sizes <==> Live(a, b);
    }
    forall b | b in a'.sizes ensures a'.sizes[b] <= Extent(a', b) {
      if b != Block(i, 0) { assert b in a.sizes && a.sizes[b] <= Extent(a, b); }
    }
  }
}
