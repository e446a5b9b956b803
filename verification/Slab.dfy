// src/core/ngx_slab.c: ngx_slab_init, ngx_slab_alloc_locked, ngx_slab_free_locked and
// the page allocator below them, on one pool in shared memory.
module Slab {
  import opened Bits
  import opened Sequences
  import opened SlabLedger
  import opened SlabPool
  import opened SlabSpace
  import opened SlabTable
  import opened SlabChunks
  import opened SlabSteps
  import opened SlabMemory

  const MAX_SIZE: nat := 2048    // ngx_slab_max_size

  // (size + ngx_pagesize - 1) >> ngx_pagesize_shift, in 64 bits
  function PagesFor(size: nat): nat { (size + PAGE_SIZE - 1) % WORD / PAGE_SIZE }

  // The page count covers the request, by less than a page, unless the rounding up overflows.
  lemma PagesCover(size: nat)
    requires size < WORD
    ensures PagesFor(size) * PAGE_SIZE >= size <==> size <= WORD - PAGE_SIZE
    ensures size <= WORD - PAGE_SIZE ==> PagesFor(size) * PAGE_SIZE < size + PAGE_SIZE
    ensures size > WORD - PAGE_SIZE ==> PagesFor(size) == 0
  {
    var t := size + PAGE_SIZE - 1;
    if t >= WORD { assert t % WORD == t - WORD; } else { assert t % WORD == t; }
  }

  // the table while the tail descriptors of a run are written
  ghost function PartialRun(d: Table, i: nat, k: nat, t: nat): Table {
    map x | x in d ::
      if x == At(i) then Page(NGX_SLAB_PAGE_START + k, Null, Tagged(Null, NGX_SLAB_PAGE))
      else if x.At? && i < x.i < i + t then Page(NGX_SLAB_PAGE_BUSY, Null, Tagged(Null, NGX_SLAB_PAGE))
      else d[x]
  }

  ghost predicate FreesPages(d: Table, i: nat, k: nat) {
    && At(i) in d && Free in d && Null !in d
    && var z := ZeroedTable(d, i, k);
       if z[At(i)].next == Null then z[Free].next in z
       else && z[At(i)].prev.to in z && z[At(i)].next in z && z[At(i)].prev.to != At(i)
            && Unlinked(z, At(i))[Free].next in z
  }

  // lines 714-732
  ghost function FreedTable(d: Table, i: nat, k: nat): Table
    requires FreesPages(d, i, k)
  {
    var z := ZeroedTable(d, i, k);
    Pushed(if z[At(i)].next == Null then z else Unlinked(z, At(i)), Free, NGX_SLAB_PAGE, i)
  }

  datatype FreeResult = Freed | OutsideOfPool | WrongChunk | ChunkFree | PageFree | WrongPage

  ghost predicate MovedToFront(a: Pool, a': Pool, i: nat) {
    i in a.freeRuns && a' == a.(freeRuns := [i] + Without(a.freeRuns, IndexOf(a.freeRuns, i)))
  }

  // ngx_slab_free_pages on a run that is free already
  ghost predicate Refrees(a: Pool, d: Table, w: seq<nat>, i: nat, j: nat, d1: Table) {
    && Rep(a, d, w) && Inv(a) && i < |a.kinds| && a.kinds[i].FreeRun? && j < |a.freeRuns| && a.freeRuns[j] == i
    && At(i) in d && d[At(i)].prev.to in d && d[At(i)].next in d && d1 == Unlinked(d, At(i))
    && Free in d1 && At(i) in d1 && d1[Free].next in d1 && Linked(d1, Free, NGX_SLAB_PAGE, Without(a.freeRuns, j))
    && i !in Without(a.freeRuns, j)
    && (d1[Free].next == Free || (d1[Free].next.At? && d1[Free].next.i in a.freeRuns))
  }

  lemma RefreesFacts(a: Pool, d: Table, w: seq<nat>, i: nat)
    requires Rep(a, d, w) && Inv(a) && i < |a.kinds| && a.kinds[i].FreeRun?
    ensures i in a.freeRuns && At(i) in d && d[At(i)].prev.to in d && d[At(i)].next in d
    ensures ZeroedTable(d, i, a.kinds[i].len) == d
    ensures d[At(i)].next != Null && d[At(i)].prev.to != At(i) && Null !in d
    ensures Refrees(a, d, w, i, IndexOf(a.freeRuns, i), Unlinked(d, At(i)))
  {
    var j := IndexOf(a.freeRuns, i);
    var xs := Without(a.freeRuns, j);
    FreeMember(a, d, w, j);
    forall x | i < x < i + a.kinds[i].len ensures At(x) in d && d[At(x)] == Page(0, Null, Tagged(Null, NGX_SLAB_PAGE)) {
      assert PageOk(a, d, w, x);
    }
    assert ZeroedTable(d, i, a.kinds[i].len) == d;
    UnlinkedList(d, Free, NGX_SLAB_PAGE, a.freeRuns, j);
    WithoutOne(a.freeRuns, i);
    assert xs != [] ==> LinkedAt(Unlinked(d, At(i)), Free, NGX_SLAB_PAGE, xs, 0) && xs[0] in xs;
  }

  lemma RefreedPages(a: Pool, a': Pool, d: Table, w: seq<nat>, i: nat, j: nat, d1: Table, d': Table)
    requires Refrees(a, d, w, i, j, d1) && a' == a.(freeRuns := a'.freeRuns) && d' == Pushed(d1, Free, NGX_SLAB_PAGE, i)
    ensures forall x {:trigger PageOk(a', d', w, x)} :: 0 <= x < |a.kinds| ==> PageOk(a', d', w, x)
  {
    FreeMember(a, d, w, j);
    forall x | 0 <= x < |a.kinds| ensures PageOk(a', d', w, x) {
      assert PageOk(a, d, w, x);
      if d'[At(x)] == d[At(x)] {
        KeptPage(a, a', d, d', w, w, x);
      } else {
        assert x in a.freeRuns && a.kinds[x].FreeRun?;
      }
    }
  }

  lemma RefreedSlots(a: Pool, d: Table, w: seq<nat>, i: nat, j: nat, d1: Table, d': Table, k: nat)
    requires Refrees(a, d, w, i, j, d1) && d' == Pushed(d1, Free, NGX_SLAB_PAGE, i) && k < 9
    ensures Linked(d', Slot(k), TagOf(k + MIN_SHIFT), a.partial[k])
  {
    FreeMember(a, d, w, j);
    assert SlotOk(a, k);
    assert Linked(d, Slot(k), TagOf(k + MIN_SHIFT), a.partial[k]);
    forall x | x in a.partial[k] ensures At(x) in d && At(x) in d' && d'[At(x)] == d[At(x)] {
      assert a.kinds[x].Chunks? && x !in a.freeRuns;
      var y :| 0 <= y < |a.partial[k]| && a.partial[k][y] == x;
      assert LinkedAt(d, Slot(k), TagOf(k + MIN_SHIFT), a.partial[k], y);
    }
    ListFrame(d, d', Slot(k), TagOf(k + MIN_SHIFT), a.partial[k]);
  }

  lemma RefreedInv(a: Pool, i: nat, a': Pool)
    requires Inv(a) && MovedToFront(a, a', i)
    ensures Inv(a')
  {
    WithoutOne(a.freeRuns, i);
    forall k | 0 <= k < 9 ensures SlotOk(a', k) { assert SlotOk(a, k); StillSlotted(a, a', k); }
    forall x | 0 <= x < |a'.kinds| ensures UsedOk(a', x) { assert UsedOk(a, x); }
    forall x: nat | true ensures x in a'.freeRuns <==> x < |a'.kinds| && a'.kinds[x].FreeRun? {
      assert x in a.freeRuns <==> x < |a.kinds| && a.kinds[x].FreeRun?;
    }
    forall b | true ensures b in a'.sizes <==> Live(a', b) { assert b in a.sizes <==> Live(a, b); }
    forall b | b in a'.sizes ensures a'.sizes[b] <= Extent(a', b) { assert a.sizes[b] <= Extent(a, b); }
  }

  lemma Refreed(a: Pool, d: Table, w: seq<nat>, i: nat) returns (a': Pool)
    requires Rep(a, d, w) && Inv(a) && i < |a.kinds| && a.kinds[i].FreeRun?
    ensures MovedToFront(a, a', i) && Inv(a') && |a'.kinds| == |a.kinds| && 1 <= a.kinds[i].len < NGX_SLAB_PAGE_START
    ensures FreesPages(d, i, a.kinds[i].len) && Rep(a', FreedTable(d, i, a.kinds[i].len), w)
  {
    assert i in a.freeRuns && KindOk(a.kinds, i);
    a' := a.(freeRuns := [i] + Without(a.freeRuns, IndexOf(a.freeRuns, i)));
    RefreedInv(a, i, a');
    RefreedRep(a, d, w, i, a');
  }

  lemma RefreedRep(a: Pool, d: Table, w: seq<nat>, i: nat, a': Pool)
    requires Rep(a, d, w) && Inv(a) && i < |a.kinds| && a.kinds[i].FreeRun? && MovedToFront(a, a', i)
    ensures FreesPages(d, i, a.kinds[i].len) && Rep(a', FreedTable(d, i, a.kinds[i].len), w)
  {
    RefreesFacts(a, d, w, i);
    var j, d1 := IndexOf(a.freeRuns, i), Unlinked(d, At(i));
    var d' := Pushed(d1, Free, NGX_SLAB_PAGE, i);
    assert FreedTable(d, i, a.kinds[i].len) == d';
    PushedList(d1, Free, NGX_SLAB_PAGE, Without(a.freeRuns, j), i);
    RefreedPages(a, a', d, w, i, j, d1, d');
    forall k | 0 <= k < 9
      ensures Linked(d', Slot(k), TagOf(k + MIN_SHIFT), a'.partial[k])
    {
      RefreedSlots(a, d, w, i, j, d1, d', k);
    }
  }

  lemma StillSlotted(a: Pool, a': Pool, k: nat)
    requires SlotOk(a, k) && a' == a.(freeRuns := a'.freeRuns)
    ensures SlotOk(a', k)
  {
    forall x: nat | true ensures x in a'.partial[k] <==>
        x < |a'.kinds| && a'.kinds[x] == Chunks(k + MIN_SHIFT) && !Full(a', x) {
      assert x in a.partial[k] <==> x < |a.kinds| && a.kinds[x] == Chunks(k + MIN_SHIFT) && !Full(a, x);
      assert Full(a', x) <==> Full(a, x);
    }
  }

  // page-aligned start: an address and its offset are aligned alike
  lemma Aligned(p: nat, start: nat, s: nat, t: nat)
    requires s * t == PAGE_SIZE && start <= p && start % PAGE_SIZE == 0 && s >= 1
    ensures p % PAGE_SIZE == (p - start) % PAGE_SIZE && p % s == p % PAGE_SIZE % s
  {
    var q, r := p / PAGE_SIZE, p % PAGE_SIZE;
    assert p == s * (t * q) + r by { assert s * (t * q) == s * t * q; }
    assert r == s * (r / s) + r % s;
    assert p == s * (t * q + r / s) + r % s by { assert s * (t * q + r / s) == s * (t * q) + s * (r / s); }
    DivIs(p, s, t * q + r / s, r % s);
    assert p == s * (p / s) + p % s;
  }

  lemma DividesEvenly(x: nat, s: nat)
    requires s >= 1 && x % s == 0
    ensures x / s * s == x
  {
    assert x == s * (x / s) + x % s;
  }

  lemma DividesBack(x: nat, s: nat, q: nat)
    requires s >= 1 && x == q * s
    ensures x / s == q && x % s == 0
  {
    DivIs(x, s, q, 0);
    assert x == s * (x / s) + x % s;
  }

  // --- ngx_slab_init ---------------------------------------------------------------------

  const PAGE_STRUCT: nat := 24   // sizeof(ngx_slab_page_t)
  const SLOTS: nat := 9          // ngx_pagesize_shift - min_shift

  // a word read as ngx_int_t
  function AsSigned(x: nat): int
    requires x < WORD
  {
    if x < 0x8000_0000_0000_0000 then x else x - WORD
  }

  // Lines 89-131: how many page descriptors there are, how many pages, and where the
  // pages start. p follows the pool header, and (end - start) is divided as a word.
  function DescriptorCount(p: nat, end: nat): nat
    requires p <= end
  {
    (end - p) / (PAGE_SIZE + PAGE_STRUCT)
  }

  function PageStart(p: nat, end: nat): nat
    requires p <= end
  {
    Align(p + SLOTS * PAGE_STRUCT + DescriptorCount(p, end) * PAGE_STRUCT, PAGE_SIZE)
  }

  function PageCount(p: nat, end: nat): nat
    requires p <= end < WORD - PAGE_SIZE
  {
    var pages := DescriptorCount(p, end);
    var m := AsSigned((pages - (end - PageStart(p, end)) % WORD / PAGE_SIZE) % WORD);
    if 0 < m <= pages then pages - m else pages
  }

  // The page area fits exactly when its start is not past the end, which two pages ensure;
  // the descriptors always end before the pages start, and at most two pages are lost.
  lemma LayoutFits(p: nat, end: nat)
    requires p <= end < WORD - PAGE_SIZE
    ensures PageStart(p, end) + PAGE_SIZE * PageCount(p, end) <= end <==> PageStart(p, end) <= end
    ensures DescriptorCount(p, end) >= 2 ==> PageStart(p, end) <= end
    ensures p + SLOTS * PAGE_STRUCT + PageCount(p, end) * PAGE_STRUCT <= PageStart(p, end)
    ensures PageStart(p, end) % PAGE_SIZE == 0
    ensures PageStart(p, end) <= end ==> PageCount(p, end) == (end - PageStart(p, end)) / PAGE_SIZE
    ensures PageStart(p, end) <= end ==> end - p < (PageCount(p, end) + 3) * (PAGE_SIZE + PAGE_STRUCT)
  {
    var pages, start := DescriptorCount(p, end), PageStart(p, end);
    var t := p + SLOTS * PAGE_STRUCT + pages * PAGE_STRUCT;
    assert t <= start < t + PAGE_SIZE && start % PAGE_SIZE == 0;
    assert pages * 4120 <= end - p < pages * 4120 + 4120;
    if start <= end {
      var q := (end - start) / PAGE_SIZE;
      assert (end - start) % WORD == end - start;
      assert pages >= q && (pages - q) % WORD == pages - q;
    }
  }

  // a pool too small for its one page: the page would lie past the end
  lemma LayoutOverruns()
    ensures DescriptorCount(4000, 8120) == 1 && PageStart(4000, 8120) == 8192 && PageCount(4000, 8120) == 1
  {
    assert (8120 - 8192) % WORD == WORD - 72;
    assert (WORD - 72) / PAGE_SIZE == 0xF_FFFF_FFFF_FFFF;
    assert (1 - 0xF_FFFF_FFFF_FFFF) % WORD == WORD + 1 - 0xF_FFFF_FFFF_FFFF;
  }

  function Descriptors(n: nat): set<Link> {
    {Free} + (set k: nat | k < SLOTS :: Slot(k)) + (set i: nat | i < n :: At(i))
  }

  ghost function FreshPool(n: nat): Pool
    requires n >= 1
  {
    Pool(seq(n, i => if i == 0 then FreeRun(n) else FreeTail(0)), seq(n, i => {}), [0], seq(9, k => []), map[])
  }

  lemma FreshPoolInv(n: nat)
    requires n >= 1
    ensures Inv(FreshPool(n))
  {
    var a := FreshPool(n);
    forall i | 0 <= i < n ensures KindOk(a.kinds, i) {}
    forall k | 0 <= k < 9 ensures SlotOk(a, k) {}
    assert forall i: nat :: i in a.freeRuns <==> i == 0;
    assert forall b :: !Live(a, b);
  }

  lemma FreshPoolRep(n: nat, d: Table, w: seq<nat>)
    requires 1 <= n < 0x8000_0000_0000_0000 && d.Keys == Descriptors(n) && |w| == 512 * n
    requires forall j :: 0 <= j < |w| ==> w[j] < WORD
    requires d[Free].next == At(0) && d[At(0)] == Page(n, Free, Tagged(Free, NGX_SLAB_PAGE))
    requires forall i: nat :: 1 <= i < n ==> d[At(i)] == Page(0, Null, Tagged(Null, NGX_SLAB_PAGE))
    requires forall k: nat :: k < SLOTS ==> d[Slot(k)].next == Slot(k)
    ensures Rep(FreshPool(n), d, w)
  {
    var a := FreshPool(n);
    assert Links(d, n) by {
      assert forall x :: x in d <==> x in Descriptors(n);
    }
    forall i | 0 <= i < n ensures PageOk(a, d, w, i) {}
    assert LinkedAt(d, Free, NGX_SLAB_PAGE, [0], 0);
    forall k | 0 <= k < 9 ensures Linked(d, Slot(k), TagOf(k + MIN_SHIFT), a.partial[k]) {}
  }

  class SlabAllocator {
    const start: nat               // pool->start, the address of the page area
    const end: nat                 // pool->end
    var desc: Table                // pool->free, the slots and pool->pages
    var words: seq<nat>            // the page area, as 64-bit words
    ghost var pool: Pool

    // the page area is aligned and ends before pool->end
    ghost predicate Placed(a: Pool) {
      start > 0 && start % PAGE_SIZE == 0 && start + PAGE_SIZE * |a.kinds| <= end < WORD
    }

    ghost predicate Valid()
      reads this
    {
      Inv(pool) && Rep(pool, desc, words) && Placed(pool)
    }

    ghost function Address(b: Block): nat
      reads this
    {
      start + Offset(pool, b)
    }

    // ngx_slab_init on a pool whose header ends at p; memory is what the page area held before
    constructor (p: nat, end: nat, memory: seq<nat>)
      requires 0 < p <= end < WORD - PAGE_SIZE && PageStart(p, end) <= end && PageCount(p, end) >= 1
      requires |memory| == 512 * PageCount(p, end) && forall j :: 0 <= j < |memory| ==> memory[j] < WORD
      ensures Valid() && start == PageStart(p, end) && this.end == end && words == memory
      ensures pool == FreshPool(PageCount(p, end))
    {
      LayoutFits(p, end);
      var n := PageCount(p, end);
      start := PageStart(p, end);
      this.end := end;
      words := memory;
      pool := FreshPool(n);
      var d := map x | x in Descriptors(n) :: Page(0, if x.Slot? then x else Null, Tagged(Null, NGX_SLAB_PAGE));
      d := d[Free := d[Free].(next := At(0))];
      d := d[At(0) := Page(n, Free, Tagged(Free, NGX_SLAB_PAGE))];
      desc := d;
      FreshPoolInv(n);
      FreshPoolRep(n, d, memory);
    }

    // --- pages -----------------------------------------------------------------------

    ghost predicate RunShorter(kinds: seq<Kind>, x: nat, k: nat) {
      x < |kinds| && kinds[x].FreeRun? && kinds[x].len < k
    }

    ghost predicate TooShort(k: nat, j: nat)
      reads this
    {
      && j <= |pool.freeRuns|
      && forall y :: 0 <= y < j ==> RunShorter(pool.kinds, pool.freeRuns[y], k)
    }

    // ngx_slab_alloc_pages: the first free run that is long enough gives its first k pages
    method AllocPages(k: nat, ghost size: nat) returns (page: Link, ghost j: nat)
      requires Valid() && k >= 1 && size <= k * PAGE_SIZE
      modifies this`desc, this`pool
      ensures Valid()
      ensures page == Null ==> old(TooShort(k, |pool.freeRuns|)) && pool == old(pool) && desc == old(desc)
      ensures page != Null ==> j < |old(pool).freeRuns| && page == At(old(pool).freeRuns[j]) && old(TooShort(k, j))
      ensures page != Null ==> Takes(old(pool), old(desc), words, j, k) && pool == TakeRun(old(pool), j, k, size)
    {
      page := desc[Free].next;
      j := 0;
      while page != Free
        invariant j <= |pool.freeRuns| && page == (if j < |pool.freeRuns| then At(pool.freeRuns[j]) else Free)
        invariant TooShort(k, j) && pool == old(pool) && desc == old(desc)
        decreases |pool.freeRuns| - j
      {
        FreeMember(pool, desc, words, j);
        if desc[page].slab >= k {
          TakePages(page, k, j, size);
          return;
        }
        page := desc[page].next;
        j := j + 1;
      }
      page := Null;
    }

    // lines 659-698
    method TakePages(page: Link, k: nat, ghost j: nat, ghost size: nat)
      requires Valid() && 1 <= k && size <= k * PAGE_SIZE && j < |pool.freeRuns| && page == At(pool.freeRuns[j])
      requires page in desc && desc[page].slab >= k
      modifies this`desc, this`pool
      ensures Valid() && Takes(old(pool), old(desc), words, j, k) && pool == TakeRun(old(pool), j, k, size)
    {
      FreeMember(pool, desc, words, j);
      TakeRunInv(pool, j, k, size);
      TakeRunRep(pool, desc, words, j, k, size);
      CutOff(page, k, j);
      pool := TakeRun(pool, j, k, size);
    }

    method CutOff(page: Link, k: nat, ghost j: nat)
      requires Valid() && 1 <= k && j < |pool.freeRuns| && page == At(pool.freeRuns[j])
      requires Takes(pool, desc, words, j, k)
      modifies this`desc
      ensures desc == TakenTable(old(desc), page.i, k)
    {
      FreeMember(pool, desc, words, j);
      ghost var d0 := desc;
      if desc[page].slab > k {
        SplitRun(page, At(page.i + k), k);
      } else {
        Unlink(page);
      }
      assert forall x :: page.i <= x < page.i + k ==> x < |pool.kinds| && At(x) in desc;
      WriteRun(page.i, k);
    }

    // lines 662-670
    method SplitRun(page: Link, rest: Link, k: nat)
      requires page in desc && rest in desc && desc[page].prev.to in desc && desc[page].next in desc
      requires desc[page].slab > k && rest != page
      requires desc[page].prev.tag == NGX_SLAB_PAGE && rest != desc[page].prev.to && rest != desc[page].next
      requires desc[page].prev.to != page && desc[page].next != page
      modifies this`desc
      ensures desc == Split(old(desc), page, rest, old(desc)[page].slab - k)
    {
      desc := desc[rest := desc[rest].(slab := desc[page].slab - k)];
      desc := desc[rest := desc[rest].(next := desc[page].next)];
      desc := desc[rest := desc[rest].(prev := desc[page].prev)];
      var p := desc[page].prev.to;
      desc := desc[p := desc[p].(next := rest)];
      desc := desc[desc[page].next := desc[desc[page].next].(prev := Tagged(rest, NGX_SLAB_PAGE))];
    }

    // a descriptor leaves its list: lines 674-676, 721-723, 245-248, 278-281 and 320-323
    method Unlink(page: Link)
      requires page in desc && desc[page].prev.to in desc && desc[page].next in desc && desc[page].prev.to != page
      modifies this`desc
      ensures desc == Unlinked(old(desc), page)
    {
      var prev := desc[page].prev.to;
      desc := desc[prev := desc[prev].(next := desc[page].next)];
      desc := desc[desc[page].next := desc[desc[page].next].(prev := desc[page].prev)];
    }

    // lines 679-698
    method WriteRun(i: nat, k: nat)
      requires k >= 1 && forall x :: i <= x < i + k ==> At(x) in desc
      modifies this`desc
      ensures desc == RunTable(old(desc), i, k)
    {
      var page := At(i);
      ghost var d := desc;
      desc := desc[page := desc[page].(slab := NGX_SLAB_PAGE_START + k)];
      desc := desc[page := desc[page].(next := Null)];
      desc := desc[page := desc[page].(prev := Tagged(Null, NGX_SLAB_PAGE))];
      var t := 1;
      assert desc == PartialRun(d, i, k, 1);
      while t < k
        invariant 1 <= t <= k && desc == PartialRun(d, i, k, t)
      {
        desc := desc[At(i + t) := Page(NGX_SLAB_PAGE_BUSY, Null, Tagged(Null, NGX_SLAB_PAGE))];
        t := t + 1;
      }
    }

    // ngx_slab_free_pages
    method FreePages(i: nat, k: nat)
      requires FreesPages(desc, i, k)
      modifies this`desc
      ensures desc == FreedTable(old(desc), i, k)
    {
      var page := At(i);
      desc := ZeroedTable(desc, i, k);
      if desc[page].next != Null {
        Unlink(page);
      }
      desc := desc[page := desc[page].(prev := Tagged(Free, NGX_SLAB_PAGE))];
      desc := desc[page := desc[page].(next := desc[Free].next)];
      desc := desc[desc[page].next := desc[desc[page].next].(prev := Tagged(page, NGX_SLAB_PAGE))];
      desc := desc[Free := desc[Free].(next := page)];
    }

    // --- chunks ----------------------------------------------------------------------

    // lines 190-199: the smallest class that holds size bytes
    method ShiftFor(size: nat) returns (shift: nat)
      requires size < MAX_SIZE
      ensures ShiftOk(shift) && size <= Shl1(shift) && (shift > MIN_SHIFT ==> Shl1(shift - 1) < size)
    {
      assert Shl1(3) == 8;
      if size > 8 {
        shift := 1;
        var s := (size - 1) / 2;
        while s != 0
          invariant 1 <= shift && s == Shr(size - 1, shift) && Shl1(shift - 1) <= size - 1
          decreases s
        {
          ShrHalf(size - 1, shift);
          ShrZero(size - 1, shift);
          shift := shift + 1;
          s := s / 2;
        }
        ShrZero(size - 1, shift);
        ClassBounds(shift, size);
      } else {
        shift := MIN_SHIFT;
      }
    }

    // the bit scans of lines 225-228, 270-273 and 309-315
    method FirstClear(w: nat, lo: nat, hi: nat) returns (i: nat)
      requires lo <= hi && exists b :: lo <= b < hi && !Bit(w, b)
      ensures lo <= i < hi && !Bit(w, i)
    {
      i := lo;
      while Bit(w, i)
        invariant lo <= i < hi && forall b :: lo <= b < i ==> Bit(w, b)
        decreases hi - i
      {
        i := i + 1;
      }
    }

    ghost predicate Listed(i: nat, shift: nat)
      reads this
    {
      && Valid() && ShiftOk(shift) && i < |pool.kinds| && pool.kinds[i] == Chunks(shift)
      && i in pool.partial[shift - MIN_SHIFT]
    }

    // lines 221-223: the first word of the bitmap with a clear bit
    method FirstFreeWord(i: nat, shift: nat) returns (n: nat)
      requires Listed(i, shift) && shift < EXACT_SHIFT
      ensures n < Count(shift) / 64 <= 8 && 512 * i + 512 <= |words| && words[512 * i + n] != NGX_SLAB_BUSY
      ensures forall x: nat :: x < n ==> Bitmap(words, i, x) == NGX_SLAB_BUSY
    {
      HasFreeWord(i, shift);
      var map_ := Count(shift) / 64;
      n := 0;
      while words[512 * i + n] == NGX_SLAB_BUSY
        invariant n < map_ && forall x: nat :: x < n ==> Bitmap(words, i, x) == NGX_SLAB_BUSY
        decreases map_ - n
      {
        if n + 1 == map_ {
          assert false;  // the first page of a slot list has a free chunk
        }
        n := n + 1;
      }
    }

    lemma HasFreeWord(i: nat, shift: nat)
      requires Listed(i, shift) && shift < EXACT_SHIFT
      ensures 1 <= Count(shift) / 64 <= 8 && 512 * i + 512 <= |words|
      ensures exists x: nat :: x < Count(shift) / 64 && Bitmap(words, i, x) != NGX_SLAB_BUSY
    {
      ListedFacts(i, shift);
    }

    // lines 237-243: is every word busy, when those before the n-th are?
    method BusyFrom(i: nat, shift: nat, n: nat) returns (full: bool)
      requires ShiftOk(shift) && shift < EXACT_SHIFT && At(i) in desc
      requires n <= Count(shift) / 64 <= 8 && 512 * i + 512 <= |words|
      requires forall x: nat :: x < n ==> Bitmap(words, i, x) == NGX_SLAB_BUSY
      ensures full <==> LooksFull(desc, words, i, shift)
    {
      var map_ := Count(shift) / 64;
      var x := n;
      while x < map_
        invariant n <= x <= map_ && forall y: nat :: y < x ==> Bitmap(words, i, y) == NGX_SLAB_BUSY
      {
        if words[512 * i + x] != NGX_SLAB_BUSY {
          assert Bitmap(words, i, x) != NGX_SLAB_BUSY;
          return false;
        }
        x := x + 1;
      }
      full := true;
    }

    // a listed page of small chunks gives one: lines 211-257
    method TakeSmall(i: nat, shift: nat) returns (c: nat)
      requires Listed(i, shift) && shift < EXACT_SHIFT
      modifies this`desc, this`words
      ensures TakesChunk(pool, old(desc), old(words), i, shift, c)
      ensures desc == TakenChunkTable(pool, old(desc), i, shift, c) && words == MarkedWords(old(words), i, shift, c)
    {
      ListedFacts(i, shift);
      var n := FirstFreeWord(i, shift);
      ghost var w0 := words;
      SomeClear(words[512 * i + n]);
      var m := FirstClear(words[512 * i + n], 0, 64);
      c := 64 * n + m;
      ClearIsFree(i, shift, c);
      FullAfter(pool, desc, words, i, shift, c);
      words := words[512 * i + n := SetBit(words[512 * i + n], m)];
      assert words == MarkedWords(w0, i, shift, c);
      forall y: nat | y < n ensures Bitmap(words, i, y) == NGX_SLAB_BUSY { assert Bitmap(w0, i, y) == NGX_SLAB_BUSY; }
      if words[512 * i + n] == NGX_SLAB_BUSY {
        assert Bitmap(words, i, n) == NGX_SLAB_BUSY;
        var full := BusyFrom(i, shift, n + 1);
        if full { LeaveList(i, NGX_SLAB_SMALL); }
      } else {
        assert Bitmap(words, i, n) != NGX_SLAB_BUSY;
      }
    }

    // a listed page of 64-byte chunks gives one: lines 263-293
    method TakeExact(i: nat, shift: nat) returns (c: nat)
      requires Listed(i, shift) && shift == EXACT_SHIFT
      modifies this`desc
      ensures TakesChunk(pool, old(desc), words, i, shift, c) && desc == TakenChunkTable(pool, old(desc), i, shift, c)
    {
      ListedFacts(i, shift);
      ghost var d0 := desc;
      Powers();
      SomeClear(desc[At(i)].slab);
      c := FirstClear(desc[At(i)].slab, 0, 64);
      ChunkFacts(shift);
      ClearIsFree(i, shift, c);
      FullAfter(pool, desc, words, i, shift, c);
      desc := desc[At(i) := desc[At(i)].(slab := SetBit(desc[At(i)].slab, c))];
      assert desc == MarkedTable(d0, i, shift, c);
      if desc[At(i)].slab == NGX_SLAB_BUSY {
        LeaveList(i, NGX_SLAB_EXACT);
      }
    }

    // a listed page of big chunks gives one: lines 298-336
    method TakeBig(i: nat, shift: nat) returns (c: nat)
      requires Listed(i, shift) && shift > EXACT_SHIFT
      modifies this`desc
      ensures TakesChunk(pool, old(desc), words, i, shift, c) && desc == TakenChunkTable(pool, old(desc), i, shift, c)
    {
      ListedFacts(i, shift);
      ghost var d0 := desc;
      var n := Shl1(12 - desc[At(i)].slab % 16);
      var mask := Shl1(n) - 1;
      SomeBigClear(desc[At(i)].slab, shift);
      var m := FirstClear(desc[At(i)].slab, 32, 32 + n);
      c := m - 32;
      ClearIsFree(i, shift, c);
      FullAfter(pool, desc, words, i, shift, c);
      desc := desc[At(i) := desc[At(i)].(slab := SetBit(desc[At(i)].slab, m))];
      assert desc == MarkedTable(d0, i, shift, c);
      if desc[At(i)].slab / MAP_UNIT == mask {
        LeaveList(i, NGX_SLAB_BIG);
      }
    }

    // lines 245-251, 278-284 and 320-326
    method LeaveList(i: nat, tag: nat)
      requires At(i) in desc && desc[At(i)].prev.to in desc && desc[At(i)].next in desc && desc[At(i)].prev.to != At(i)
      modifies this`desc
      ensures desc == LeftTable(old(desc), i, tag)
    {
      Unlink(At(i));
      desc := desc[At(i) := desc[At(i)].(next := Null)];
      desc := desc[At(i) := desc[At(i)].(prev := Tagged(Null, tag))];
    }

    // lines 201-336, once a listed page is found
    method TakeListed(i: nat, shift: nat, ghost size: nat) returns (c: nat)
      requires Listed(i, shift) && size <= Shl1(shift)
      modifies this`desc, this`words, this`pool
      ensures Valid() && Undisturbed(old(pool), pool, old(words), words)
      ensures TakesChunk(old(pool), old(desc), old(words), i, shift, c) && pool == TakeChunk(old(pool), i, c, size)
    {
      ghost var d0, w0 := desc, words;
      if shift < EXACT_SHIFT {
        c := TakeSmall(i, shift);
      } else if shift == EXACT_SHIFT {
        c := TakeExact(i, shift);
      } else {
        c := TakeBig(i, shift);
      }
      TakeChunkInv(pool, i, c, size);
      TakeChunkRep(pool, d0, w0, i, shift, c, size);
      TakeChunkBytes(pool, d0, w0, i, shift, c, size);
      pool := TakeChunk(pool, i, c, size);
    }

    // lines 339-410: a page just allocated is cut into chunks
    method CutPage(i: nat, shift: nat, ghost size: nat) returns (c: nat)
      requires Valid() && i < |pool.kinds| && pool.kinds[i] == Run(1) && ShiftOk(shift)
      requires pool.partial[shift - MIN_SHIFT] == [] && size <= Shl1(shift)
      modifies this`desc, this`words, this`pool
      ensures Valid() && c == Reserved(shift) && pool == NewChunks(old(pool), i, shift, size)
      ensures forall b {:trigger SameBytes(old(pool), pool, old(words), words, b)} ::
                b in old(pool).sizes && b != Block(i, 0) ==> SameBytes(old(pool), pool, old(words), words, b)
    {
      ghost var w0, d0 := words, desc;
      ChunkFacts(shift);
      c := 0;
      var slab;
      if shift < EXACT_SHIFT {
        c := Count(shift) / 8 / Shl1(shift);
        if c == 0 { c := 1; }
        assert c == Reserved(shift);
        WriteBitmap(i, shift, c);
        slab := shift;
      } else if shift == EXACT_SHIFT {
        slab := 1;
      } else {
        slab := MAP_UNIT + shift;
      }
      var head := Slot(shift - MIN_SHIFT);
      NewChunksInv(pool, i, shift, size);
      NewChunksRep(pool, d0, w0, words, i, shift, size);
      NewChunksBytes(pool, w0, words, i, shift, size);
      assert PageOk(pool, d0, w0, i);
      desc := desc[At(i) := Page(slab, head, Tagged(head, TagOf(shift)))];
      desc := desc[head := desc[head].(next := At(i))];
      assert desc == FreshTable(d0, i, shift);
      pool := NewChunks(pool, i, shift, size);
    }

    // lines 355-366
    method WriteBitmap(i: nat, shift: nat, n: nat)
      requires Valid() && i < |pool.kinds| && ShiftOk(shift) && shift < EXACT_SHIFT && n == Reserved(shift)
      modifies this`words
      ensures FreshWords(old(words), words, i, shift) && forall j :: 0 <= j < |words| ==> words[j] < WORD
    {
      ChunkFacts(shift);
      Powers();
      Shl1Grows(n, 8);
      assert Shl1(8) == 256;
      words := words[512 * i := 2 * Shl1(n) - 1];
      ClearWords(i, Count(shift) / 64);
    }

    // lines 363-365
    method ClearWords(i: nat, map_: nat)
      requires 512 * i + 512 <= |words| && map_ <= 512 && forall j :: 0 <= j < |words| ==> words[j] < WORD
      modifies this`words
      ensures |words| == |old(words)| && forall j :: 0 <= j < |words| ==> words[j] < WORD
      ensures forall j :: 0 <= j < |words| && !(512 * i < j < 512 * i + map_) ==> words[j] == old(words)[j]
      ensures forall y: nat :: 1 <= y < map_ ==> Bitmap(words, i, y) == 0
    {
      var x := 1;
      while x < map_
        invariant 1 <= x && |words| == |old(words)| && forall j :: 0 <= j < |words| ==> words[j] < WORD
        invariant forall j :: 0 <= j < |words| && !(512 * i < j < 512 * i + x) ==> words[j] == old(words)[j]
        invariant forall j :: 512 * i < j < 512 * i + x && j < |words| ==> words[j] == 0
        invariant x <= map_ || x == 1
      {
        words := words[512 * i + x := 0];
        x := x + 1;
      }
    }

    // --- ngx_slab_alloc_locked ---------------------------------------------------------

    ghost predicate Fits(size: nat, shift: nat) {
      ShiftOk(shift) && size <= Shl1(shift) && (shift > MIN_SHIFT ==> Shl1(shift - 1) < size)
    }

    // No free run is long enough, or there is no free page, and in every page of the class the
    // bytes beside the live blocks and the bitmap are fewer than a chunk.
    ghost predicate NoRoom(size: nat)
      reads this
    {
      if size >= MAX_SIZE then
        forall x :: 0 <= x < |pool.kinds| && pool.kinds[x].FreeRun? ==> pool.kinds[x].len * PAGE_SIZE < size
      else (forall x :: 0 <= x < |pool.kinds| ==> !pool.kinds[x].FreeRun?)
           && forall x: nat, shift: nat :: x < |pool.kinds| && Fits(size, shift) && pool.kinds[x] == Chunks(shift) ==>
               Spent(pool, x, shift)
    }

    // size bytes at p lie in the page area, clear of every live block
    ghost predicate Unclaimed(p: nat, size: nat)
      reads this
    {
      && start <= p && p + size <= end
      && forall b {:trigger b in pool.sizes} :: b in pool.sizes ==>
          p + size <= Address(b) || Address(b) + Extent(pool, b) <= p
    }

    // page x has room for a chunk of the right size
    ghost predicate Usable(a: Pool, size: nat, x: nat, shift: nat) {
      x < |a.kinds| && Fits(size, shift) && a.kinds[x] == Chunks(shift) && !Spent(a, x, shift)
    }

    // A large block takes its pages; a small one takes a page only if no page of its class has room.
    ghost predicate Drawn(a: Pool, a': Pool, size: nat) {
      if size >= MAX_SIZE then Moved(Pages(a.kinds), Pages(a'.kinds), PagesFor(size), 0)
      else if exists x: nat, shift: nat {:trigger Usable(a, size, x, shift)} :: Usable(a, size, x, shift)
            then Pages(a'.kinds) == Pages(a.kinds)
      else Moved(Pages(a.kinds), Pages(a'.kinds), 1, 1)
    }

    // what an allocation promises: b is the new block
    ghost predicate Allocated(a: Pool, w: seq<nat>, p: nat, b: Block, size: nat)
      reads this
    {
      && Valid() && b !in a.sizes && pool.sizes == a.sizes[b := size] && p == Address(b) && p > 0
      && |pool.kinds| == |a.kinds| && Undisturbed(a, pool, w, words)
    }

    lemma TooShortMeans(k: nat)
      requires Valid() && TooShort(k, |pool.freeRuns|)
      ensures forall x :: 0 <= x < |pool.kinds| && pool.kinds[x].FreeRun? ==> 1 <= pool.kinds[x].len < k
    {
      forall x | 0 <= x < |pool.kinds| && pool.kinds[x].FreeRun? ensures 1 <= pool.kinds[x].len < k {
        assert KindOk(pool.kinds, x) && x in pool.freeRuns;
      }
    }

    // what rounding up to pages asks of a run
    lemma TooShortPages(size: nat, len: nat)
      requires size <= WORD - PAGE_SIZE
      ensures len < PagesFor(size) <==> len * PAGE_SIZE < size
    {
      PagesCover(size);
    }

    // lines 165-182
    method AllocRun(size: nat) returns (p: nat, ghost b: Block)
      requires Valid() && MAX_SIZE <= size <= WORD - PAGE_SIZE
      modifies this`desc, this`pool
      ensures p == 0 <==> old(NoRoom(size))
      ensures p == 0 ==> Valid() && pool == old(pool)
      ensures p != 0 ==> Allocated(old(pool), words, p, b, size)
      ensures p != 0 ==> Drawn(old(pool), pool, size)
    {
      PagesCover(size);
      forall len: nat | true ensures len < PagesFor(size) <==> len * PAGE_SIZE < size { TooShortPages(size, len); }
      var page, j := AllocPages(PagesFor(size), size);
      b := Block(0, 0);
      if page != Null {
        p := page.i * PAGE_SIZE;
        p := p + start;
        b := Block(page.i, 0);
        TakeRunInv(old(pool), j, PagesFor(size), size);
        TakenPages(old(pool).kinds, page.i, old(pool).kinds[page.i].len, PagesFor(size));
        TakeRunBytes(old(pool), j, PagesFor(size), size, words);
      } else {
        p := 0;
        TooShortMeans(PagesFor(size));
      }
    }

    // lines 189-410
    method AllocChunk(size: nat) returns (p: nat, ghost b: Block)
      requires Valid() && size < MAX_SIZE
      modifies this`desc, this`words, this`pool
      ensures p == 0 <==> old(NoRoom(size))
      ensures p == 0 ==> Valid() && pool == old(pool) && words == old(words)
      ensures p != 0 ==> Allocated(old(pool), old(words), p, b, size)
      ensures p != 0 ==> Drawn(old(pool), pool, size)
    {
      var shift := ShiftFor(size);
      assert Fits(size, shift);
      var head := Slot(shift - MIN_SHIFT);
      assert Linked(desc, head, TagOf(shift), pool.partial[shift - MIN_SHIFT]) && SlotOk(pool, shift - MIN_SHIFT);
      var page := desc[head].next;
      b := Block(0, 0);
      p := 0;
      if page != head {
        assert pool.partial[shift - MIN_SHIFT][0] in pool.partial[shift - MIN_SHIFT];
        HasRoom(size, shift, page.i);
        p, b := AllocListed(page.i, shift, size);
        return;
      }
      ghost var j;
      ClassFull(size, shift);
      page, j := AllocPages(1, size);
      if page != Null {
        p, b := AllocFresh(page.i, j, shift, size, old(pool), old(desc));
        assert forall x: nat, s: nat :: !Usable(old(pool), size, x, s);
      } else {
        TooShortMeans(1);
      }
    }

    lemma HasRoom(size: nat, shift: nat, i: nat)
      requires Listed(i, shift) && Fits(size, shift) && size < MAX_SIZE
      ensures !NoRoom(size) && Usable(pool, size, i, shift)
    {
      assert SlotOk(pool, shift - MIN_SHIFT) && pool.kinds[i] == Chunks(shift) && !Full(pool, i);
      FullIffSpent(pool, i, shift);
    }

    // lines 203-336
    method AllocListed(i: nat, shift: nat, ghost size: nat) returns (p: nat, ghost b: Block)
      requires Listed(i, shift) && size <= Shl1(shift)
      modifies this`desc, this`words, this`pool
      ensures Allocated(old(pool), old(words), p, b, size)
      ensures pool.kinds == old(pool).kinds
    {
      var c := TakeListed(i, shift, size);
      b := Block(i, c);
      p := i * PAGE_SIZE;
      p := p + c * Shl1(shift);
      p := p + start;
      TakeChunkInv(old(pool), i, c, size);
      ChunkAddress(i, shift, c);
    }

    // a page is taken for a new chunk
    static lemma FreshAllocated(a: Pool, d: Table, w: seq<nat>, j: nat, i: nat, shift: nat, size: nat, a2: Pool,
                                w': seq<nat>)
      requires Takes(a, d, w, j, 1) && i == a.freeRuns[j] && size <= PAGE_SIZE && ShiftOk(shift)
      requires var a1 := TakeRun(a, j, 1, size);
          i < |a1.used| && shift - MIN_SHIFT < |a1.partial| && a2 == NewChunks(a1, i, shift, size)
      requires forall b {:trigger SameBytes(TakeRun(a, j, 1, size), a2, w, w', b)} ::
                 b in TakeRun(a, j, 1, size).sizes && b != Block(i, 0) ==>
                     SameBytes(TakeRun(a, j, 1, size), a2, w, w', b)
      ensures Block(i, Reserved(shift)) !in a.sizes && a2.sizes == a.sizes[Block(i, Reserved(shift)) := size]
      ensures Undisturbed(a, a2, w, w')
    {
      var a1 := TakeRun(a, j, 1, size);
      TakeRunInv(a, j, 1, size);
      TakeRunBytes(a, j, 1, size, w);
      assert Block(i, Reserved(shift)) in a.sizes <==> Live(a, Block(i, Reserved(shift)));
      assert (a.sizes[Block(i, 0) := size] - {Block(i, 0)}) == a.sizes;
      forall x | x in a.sizes && x in a2.sizes ensures SameBytes(a, a2, w, w', x) {
        assert x != Block(i, 0);
        assert SameBytes(a, a1, w, w, x) && SameBytes(a1, a2, w, w', x);
        assert forall y: nat :: Inside(a, x, y) == Inside(a1, x, y);
      }
    }

    // lines 341-410
    method AllocFresh(i: nat, ghost j: nat, shift: nat, ghost size: nat, ghost a: Pool, ghost d: Table)
      returns (p: nat, ghost b: Block)
      requires Valid() && Takes(a, d, words, j, 1) && i == a.freeRuns[j] && size < MAX_SIZE && Fits(size, shift)
      requires pool == TakeRun(a, j, 1, size) && a.partial[shift - MIN_SHIFT] == []
      modifies this`desc, this`words, this`pool
      ensures Allocated(a, old(words), p, b, size)
      ensures Moved(Pages(a.kinds), Pages(pool.kinds), 1, 1)
    {
      ghost var w := words;
      FreshRun(a, d, w, j, size);
      var c := CutPage(i, shift, size);
      p := i * PAGE_SIZE + Shl1(shift) * c;
      p := p + start;
      b := Block(i, c);
      FreshBlock(a, d, w, j, shift, size);
      FreshPages(a, j, shift, size);
    }

    lemma FreshBlock(a: Pool, d: Table, w: seq<nat>, j: nat, shift: nat, size: nat)
      requires Valid() && Takes(a, d, w, j, 1) && size < MAX_SIZE && Fits(size, shift)
      requires var i, a1 := a.freeRuns[j], TakeRun(a, j, 1, size);
               && i < |a1.used| && shift - MIN_SHIFT < |a1.partial| && pool == NewChunks(a1, i, shift, size)
               && forall b {:trigger SameBytes(a1, pool, w, words, b)} ::
                    b in a1.sizes && b != Block(i, 0) ==> SameBytes(a1, pool, w, words, b)
      ensures var i, c := a.freeRuns[j], Reserved(shift);
              Allocated(a, w, start + i * PAGE_SIZE + Shl1(shift) * c, Block(i, c), size)
    {
      ChunkAddress(a.freeRuns[j], shift, Reserved(shift));
      FreshAllocated(a, d, w, j, a.freeRuns[j], shift, size, pool, words);
    }

    lemma ChunkAddress(i: nat, shift: nat, c: nat)
      requires Valid() && i < |pool.kinds| && pool.kinds[i] == Chunks(shift)
      ensures Address(Block(i, c)) == start + i * PAGE_SIZE + Shl1(shift) * c > 0
    {}

    // what a run of one page looks like
    static lemma FreshRun(a: Pool, d: Table, w: seq<nat>, j: nat, size: nat)
      requires Takes(a, d, w, j, 1)
      ensures var i, a1 := a.freeRuns[j], TakeRun(a, j, 1, size);
              i < |a1.kinds| && |a1.kinds| == |a.kinds| && i < |a1.used| && a1.kinds[i] == Run(1) &&
                  a1.partial == a.partial
    {}

    lemma ClassFull(size: nat, shift: nat)
      requires Valid() && Fits(size, shift) && pool.partial[shift - MIN_SHIFT] == []
      ensures forall x: nat, s: nat :: x < |pool.kinds| && Fits(size, s) && pool.kinds[x] == Chunks(s) ==>
          Spent(pool, x, s)
    {
      forall x: nat, s: nat | x < |pool.kinds| && Fits(size, s) && pool.kinds[x] == Chunks(s)
        ensures Spent(pool, x, s)
      {
        if s < shift { Shl1Grows(s, shift - 1); }
        if shift < s { Shl1Grows(shift, s - 1); }
        assert SlotOk(pool, shift - MIN_SHIFT) && x !in pool.partial[shift - MIN_SHIFT];
        FullIffSpent(pool, x, s);
      }
    }

    // A successful allocation hands out bytes of the page area that no live block has.
    method AllocLocked(size: nat) returns (p: nat, ghost b: Block)
      requires Valid() && size <= WORD - PAGE_SIZE
      modifies this`desc, this`words, this`pool
      ensures p == 0 <==> old(NoRoom(size))
      ensures p == 0 ==> Valid() && pool == old(pool) && words == old(words)
      ensures p != 0 ==>
          Allocated(old(pool), old(words), p, b, size) && old(Unclaimed(p, size)) && Drawn(old(pool), pool, size)
    {
      if size >= MAX_SIZE {
        p, b := AllocRun(size);
      } else {
        p, b := AllocChunk(size);
      }
      if p != 0 { NowApart(old(pool), old(words), p, b, size); }
    }

    lemma NowApart(a: Pool, w: seq<nat>, p: nat, b: Block, size: nat)
      requires Allocated(a, w, p, b, size)
      ensures start <= p && p + size <= end
      ensures forall x :: x in a.sizes ==> p + size <= start + Offset(a, x) || start + Offset(a, x) + Extent(a, x) <= p
    {
      assert b in pool.sizes && Live(pool, b) && size <= Extent(pool, b);
      Within(pool, b);
      forall x | x in a.sizes ensures p + size <= start + Offset(a, x) || start + Offset(a, x) + Extent(a, x) <= p {
        assert x in pool.sizes && Live(pool, x);
        Disjoint(pool, b, x);
        assert SameBytes(a, pool, w, words, x);
      }
    }

    // --- ngx_slab_free_locked ----------------------------------------------------------

    // lines 476-489, 520-530 and 562-572
    method Relink(i: nat, shift: nat, tag: nat)
      requires ShiftOk(shift) && Slot(shift - MIN_SHIFT) in desc && At(i) in desc
      requires desc[Slot(shift - MIN_SHIFT)].next in desc
      requires desc[Slot(shift - MIN_SHIFT)].next != At(i)
      modifies this`desc
      ensures desc == Pushed(old(desc), Slot(shift - MIN_SHIFT), tag, i)
    {
      var head := Slot(shift - MIN_SHIFT);
      var page := At(i);
      desc := desc[page := desc[page].(next := desc[head].next)];
      desc := desc[head := desc[head].(next := page)];
      desc := desc[page := desc[page].(prev := Tagged(head, tag))];
      desc := desc[desc[page].next := desc[desc[page].next].(prev := Tagged(page, tag))];
    }

    // the list of the page, and whether the page is full, as line 475 and line 520 see it
    lemma GivesFacts(i: nat, shift: nat, c: nat)
      requires Valid() && i < |pool.kinds| && pool.kinds[i] == Chunks(shift) && ShiftOk(shift) && c in pool.used[i]
      ensures GivesChunk(pool, desc, words, i, shift, c) && desc[Slot(shift - MIN_SHIFT)].next != Null
      ensures Full(pool, i) <==> desc[At(i)].next == Null
      ensures shift == EXACT_SHIFT ==> (Full(pool, i) <==> desc[At(i)].slab == NGX_SLAB_BUSY)
      ensures Full(pool, i) ==> desc[Slot(shift - MIN_SHIFT)].next != At(i)
    {
      GivesChunkFacts(pool, desc, words, i, shift, c);
      assert PageOk(pool, desc, words, i) && SlotOk(pool, shift - MIN_SHIFT);
      FullTest(pool, desc, words, i);
      var xs := pool.partial[shift - MIN_SHIFT];
      assert Linked(desc, Slot(shift - MIN_SHIFT), TagOf(shift), xs);
      assert xs != [] ==> xs[0] in xs;
    }

    ghost predicate Cleared(a: Pool, d: Table, w: seq<nat>, i: nat, shift: nat, c: nat)
      reads this
    {
      && GivesChunk(a, d, w, i, shift, c) && Placed(a) && pool == a
      && desc == ClearedTable(RelinkedTable(a, d, i, shift), i, shift, c) && words == ClearedWords(w, i, shift, c)
    }

    // the tests for an empty page see exactly whether c was the last chunk
    lemma LastChunk(a: Pool, d: Table, w: seq<nat>, i: nat, shift: nat, c: nat)
      requires Cleared(a, d, w, i, shift, c)
      ensures At(i) in desc && 512 * i + 512 <= |words| && SlabOk(desc[At(i)].slab, shift)
      ensures LooksEmpty(desc, words, i, shift) <==> a.used[i] == {c}
    {
      var a1 := a.(used := a.used[i := a.used[i] - {c}]);
      ClearedPage(a, d, w, i, shift, c, RelinkedTable(a, d, i, shift));
      assert UsedOk(a, i);
      EmptyTest(a1, desc, words, i);
    }

    // line 496-511, 541-547 and 580-586: done, or the page is freed as well
    method FreeEmptied(i: nat, c: nat, empty: bool, ghost a: Pool, ghost d: Table, ghost w: seq<nat>, ghost shift: nat)
      requires Cleared(a, d, w, i, shift, c) && At(i) in desc && 512 * i + 512 <= |words|
      requires empty == LooksEmpty(desc, words, i, shift)
      modifies this`desc, this`pool
      ensures Valid() && pool.sizes == a.sizes - {Block(i, c)} && |pool.kinds| == |a.kinds|
      ensures Undisturbed(a, pool, w, words)
      ensures i < |a.used| && pool.kinds == FreedKinds(a, i, c)
    {
      LastChunk(a, d, w, i, shift, c);
      GiveChunkRep(a, d, w, i, shift, c);
      ghost var a1 := GiveChunk(a, i, c);
      if empty {
        LastFreed(a, a1, i, shift, c);
        FreedChunkPageRep(a1, desc, words, i, shift - MIN_SHIFT);
        assert ZeroedTable(desc, i, 1) == desc[At(i) := desc[At(i)].(slab := 1)];
        FreePages(i, 1);
        pool := FreedChunkPage(a1, i, shift - MIN_SHIFT);
        GiveChunkBytes(a, d, w, i, shift, c, pool);
      } else {
        GiveChunkInv(a, i, c);
        pool := a1;
        GiveChunkBytes(a, d, w, i, shift, c, pool);
      }
    }

    // freeing the last chunk is emptying the page and giving it back
    static lemma LastFreed(a: Pool, a1: Pool, i: nat, shift: nat, c: nat)
      requires Inv(a) && Live(a, Block(i, c)) && a.kinds[i] == Chunks(shift) && ShiftOk(shift) && a.used[i] == {c}
      requires a1 == GiveChunk(a, i, c)
      ensures NearlyInv(a1, i) && i in a1.partial[shift - MIN_SHIFT]
      ensures Inv(FreedChunkPage(a1, i, shift - MIN_SHIFT))
    {
      LastChunkNotFull(a, i, c);
      EmptyPageInv(a, i, c);
      var e := EmptyPage(a, i, c);
      GiveRunInv(e, i);
      ChunkFacts(shift);
      assert a1.used[i] == {} && Reserved(shift) !in a1.used[i];
      forall k | 0 <= k < 9 ensures SlotOk(a1, k) { StillListed(a, a1, i, k); }
      assert FreedChunkPage(a1, i, shift - MIN_SHIFT) == GiveRun(e, i) by {
        assert GivenKinds(e.kinds, i, 1) == a.kinds[i := FreeRun(1)];
        assert Block(i, 0) !in a.sizes - {Block(i, c)} by { assert Block(i, 0) in a.sizes <==> Live(a, Block(i, 0)); }
        assert ((a.sizes - {Block(i, c)})[Block(i, 0) := 0]) - {Block(i, 0)} == a.sizes - {Block(i, c)};
        assert e.used == a1.used[i := {}];
      }
    }

    static lemma StillListed(a: Pool, a1: Pool, i: nat, k: nat)
      requires Inv(a) && i < |a.kinds| && k < 9 && a1.kinds == a.kinds && a1.partial == a.partial
      requires |a1.used| == |a.used|
      requires forall x :: 0 <= x < |a.used| && x != i ==> a1.used[x] == a.used[x]
      requires !Full(a, i) && !Full(a1, i)
      ensures SlotOk(a1, k)
    {
      assert SlotOk(a, k);
      forall x: nat | true ensures x in a1.partial[k] <==>
          x < |a1.kinds| && a1.kinds[x] == Chunks(k + MIN_SHIFT) && !Full(a1, x) {
        assert x in a.partial[k] <==> x < |a.kinds| && a.kinds[x] == Chunks(k + MIN_SHIFT) && !Full(a, x);
        assert x < |a.kinds| && x != i ==> (Full(a, x) <==> Full(a1, x));
      }
    }

    ghost predicate LiveChunk(i: nat, shift: nat, c: nat)
      reads this
    {
      Valid() && i < |pool.kinds| && pool.kinds[i] == Chunks(shift) && ShiftOk(shift) && c in pool.used[i]
    }

    // lines 474-513
    method FreeSmall(i: nat, shift: nat, c: nat)
      requires LiveChunk(i, shift, c) && shift < EXACT_SHIFT
      modifies this`desc, this`words, this`pool
      ensures Valid() && pool.sizes == old(pool).sizes - {Block(i, c)} && |pool.kinds| == |old(pool).kinds|
      ensures Undisturbed(old(pool), pool, old(words), words)
      ensures i < |old(pool).used| && pool.kinds == FreedKinds(old(pool), i, c)
    {
      GivesFacts(i, shift, c);
      if desc[At(i)].next == Null {
        Relink(i, shift, NGX_SLAB_SMALL);
      }
      words := words[512 * i + c / 64 := ClearBit(words[512 * i + c / 64], c % 64)];
      assert Cleared(pool, old(desc), old(words), i, shift, c);
      LastChunk(pool, old(desc), old(words), i, shift, c);
      ChunkFacts(shift);
      var n := Count(shift) / 8 / Shl1(shift);
      if n == 0 { n := 1; }
      assert n == Reserved(shift);
      var empty := Shr(words[512 * i], n) == 0;
      var map_ := Count(shift) / 64;
      var x := 1;
      while empty && x < map_
        invariant 1 <= x <= map_ <= 8 && Cleared(pool, old(desc), old(words), i, shift, c)
        invariant empty ==> Shr(Bitmap(words, i, 0), n) == 0 && forall y: nat :: 1 <= y < x ==> Bitmap(words, i, y) == 0
        invariant !empty ==> !LooksEmpty(desc, words, i, shift)
      {
        if words[512 * i + x] != 0 {
          assert Bitmap(words, i, x) != 0;
          empty := false;
        }
        x := x + 1;
      }
      FreeEmptied(i, c, empty, pool, old(desc), old(words), shift);
    }

    // lines 519-549
    method FreeExact(i: nat, c: nat)
      requires LiveChunk(i, EXACT_SHIFT, c)
      modifies this`desc, this`pool
      ensures Valid() && pool.sizes == old(pool).sizes - {Block(i, c)} && |pool.kinds| == |old(pool).kinds|
      ensures Undisturbed(old(pool), pool, words, words)
      ensures i < |old(pool).used| && pool.kinds == FreedKinds(old(pool), i, c)
    {
      GivesFacts(i, EXACT_SHIFT, c);
      if desc[At(i)].slab == NGX_SLAB_BUSY {
        Relink(i, EXACT_SHIFT, NGX_SLAB_EXACT);
      }
      desc := desc[At(i) := desc[At(i)].(slab := ClearBit(desc[At(i)].slab, c))];
      assert Cleared(pool, old(desc), words, i, EXACT_SHIFT, c);
      FreeEmptied(i, c, desc[At(i)].slab == 0, pool, old(desc), words, EXACT_SHIFT);
    }

    // lines 560-588
    method FreeBig(i: nat, shift: nat, c: nat)
      requires LiveChunk(i, shift, c) && shift > EXACT_SHIFT
      modifies this`desc, this`pool
      ensures Valid() && pool.sizes == old(pool).sizes - {Block(i, c)} && |pool.kinds| == |old(pool).kinds|
      ensures Undisturbed(old(pool), pool, words, words)
      ensures i < |old(pool).used| && pool.kinds == FreedKinds(old(pool), i, c)
    {
      GivesFacts(i, shift, c);
      if desc[At(i)].next == Null {
        Relink(i, shift, NGX_SLAB_BIG);
      }
      desc := desc[At(i) := desc[At(i)].(slab := ClearBit(desc[At(i)].slab, 32 + c))];
      assert Cleared(pool, old(desc), words, i, shift, c);
      FreeEmptied(i, c, desc[At(i)].slab / MAP_UNIT == 0, pool, old(desc), words, shift);
    }

    // the allocated run at page i is freed
    method FreeRunAt(i: nat)
      requires Valid() && i < |pool.kinds| && pool.kinds[i].Run? && At(i) in desc
      requires desc[At(i)].slab == NGX_SLAB_PAGE_START + pool.kinds[i].len
      modifies this`desc, this`pool
      ensures Valid() && pool == GiveRun(old(pool), i) && Undisturbed(old(pool), pool, words, words)
    {
      assert PageOk(pool, desc, words, i) && KindOk(pool.kinds, i);
      GiveRunRep(pool, desc, words, i);
      GiveRunInv(pool, i);
      GiveRunBytes(pool, i, words);
      FreePages(i, desc[At(i)].slab % NGX_SLAB_PAGE_START);
      pool := GiveRun(pool, i);
    }

    // a run that is free already only moves to the front of the free list
    method FreeAgain(i: nat)
      requires Valid() && i < |pool.kinds| && pool.kinds[i].FreeRun? && At(i) in desc
      requires desc[At(i)].slab == pool.kinds[i].len
      modifies this`desc, this`pool
      ensures Valid() && MovedToFront(old(pool), pool, i)
    {
      ghost var a' := Refreed(pool, desc, words, i);
      var k := desc[At(i)].slab % NGX_SLAB_PAGE_START;
      assert k == pool.kinds[i].len;
      FreePages(i, k);
      pool := a';
    }

    ghost predicate InBitmap(p: nat)
      reads this
    {
      && start <= p && (p - start) / PAGE_SIZE < |pool.kinds|
      && var k := pool.kinds[(p - start) / PAGE_SIZE];
      k.Chunks? && ShiftOk(k.shift) && (p - start) % PAGE_SIZE / Shl1(k.shift) < Reserved(k.shift)
    }

    // what freeing p must answer, read off the pool
    ghost function Verdict(p: nat): FreeResult
      requires start <= p <= end ==> (p - start) / PAGE_SIZE < |pool.kinds| == |pool.used|
      reads this
    {
      if p < start || p > end then OutsideOfPool
      else
        var i, off := (p - start) / PAGE_SIZE, (p - start) % PAGE_SIZE;
        match pool.kinds[i]
        case Chunks(shift) => if off % Shl1(shift) != 0 then WrongChunk
            else if off / Shl1(shift) in pool.used[i] then Freed else ChunkFree
        case FreeRun(_) => if off != 0 then WrongChunk else Freed
        case FreeTail(_) => if off != 0 then WrongChunk else PageFree
        case Run(_) => if off != 0 then WrongChunk else Freed
        case RunTail(_) => if off != 0 then WrongChunk else WrongPage
    }

    ghost predicate BlockAt(a: Pool, p: nat, b: Block) {
      b in a.sizes && p == start + Offset(a, b)
    }

    // a live block at p is freed, and nothing else; without one the pool stays as it is,
    // except that the head of a free run is moved to the front of the free list
    ghost predicate FreedOnly(a: Pool, w: seq<nat>, p: nat, r: FreeResult)
      reads this
    {
      && Valid() && Undisturbed(a, pool, w, words)
      && (forall b {:trigger BlockAt(a, p, b)} :: BlockAt(a, p, b) ==> r == Freed && pool.sizes == a.sizes - {b})
      && (forall b {:trigger BlockAt(a, p, b)} :: BlockAt(a, p, b) ==> Repaid(a, pool.kinds, b))
      && ((forall b {:trigger BlockAt(a, p, b)} :: !BlockAt(a, p, b)) ==>
          if r == Freed then start <= p && p % PAGE_SIZE == 0 && MovedToFront(a, pool, (p - start) / PAGE_SIZE)
          else pool == a)
    }

    // the only block that can start at p
    lemma Candidate(p: nat, n: nat, b: Block)
      requires Valid() && start <= p && n == (p - start) / PAGE_SIZE && n < |pool.kinds| && BlockAt(pool, p, b)
      ensures b.page == n && (pool.kinds[n].Run? || pool.kinds[n].Chunks?)
      ensures pool.kinds[n].Run? ==> b.chunk == 0 && (p - start) % PAGE_SIZE == 0
      ensures pool.kinds[n].Chunks? ==>
          ShiftOk(pool.kinds[n].shift) && (p - start) % PAGE_SIZE == b.chunk * Shl1(pool.kinds[n].shift)
    {
      assert Live(pool, b) && KindOk(pool.kinds, b.page) && UsedOk(pool, b.page);
      if pool.kinds[b.page].Chunks? {
        var shift := pool.kinds[b.page].shift;
        ChunkFacts(shift);
        Step(b.chunk, Count(shift), Shl1(shift));
      }
    }

    // lines 590-617
    method FreePage(p: nat, n: nat, slab: nat) returns (r: FreeResult)
      requires Valid() && start <= p <= end && n == (p - start) / PAGE_SIZE && n < |pool.kinds| && At(n) in desc
      requires desc[At(n)].slab == slab && desc[At(n)].prev.tag == NGX_SLAB_PAGE
      modifies this`desc, this`pool
      ensures FreedOnly(old(pool), words, p, r) && r == old(Verdict(p))
      ensures r != Freed ==> pool == old(pool) && desc == old(desc)
    {
      assert PageOk(pool, desc, words, n) && KindOk(pool.kinds, n);
      assert p % PAGE_SIZE == (p - start) % PAGE_SIZE;
      forall b | BlockAt(pool, p, b)
        ensures b == Block(n, 0) && pool.kinds[n].Run? && p % PAGE_SIZE == 0
      {
        Candidate(p, n, b);
      }
      if p % PAGE_SIZE != 0 {
        return WrongChunk;
      }
      if slab == 0 {
        return PageFree;
      }
      if slab == NGX_SLAB_PAGE_BUSY {
        return WrongPage;
      }
      r := Freed;
      if slab >= NGX_SLAB_PAGE_START {
        assert BlockAt(pool, p, Block(n, 0)) by { assert Block(n, 0) in pool.sizes <==> Live(pool, Block(n, 0)); }
        RunRepaid(pool, n);
        FreeRunAt(n);
      } else {
        FreeAgain(n);
      }
    }

    // what lines 464-470, 516-518 and 551-559 work out about p
    lemma ChunkAt(p: nat, n: nat, shift: nat, c: nat)
      requires Valid() && start <= p && n == (p - start) / PAGE_SIZE && n < |pool.kinds|
      requires pool.kinds[n] == Chunks(shift) && ShiftOk(shift)
      requires c == p % PAGE_SIZE / Shl1(shift)
      ensures p % PAGE_SIZE == (p - start) % PAGE_SIZE && p % Shl1(shift) == (p - start) % PAGE_SIZE % Shl1(shift)
      ensures c < Count(shift)
      ensures forall b {:trigger BlockAt(pool, p, b)} :: BlockAt(pool, p, b) <==>
          b == Block(n, c) && p % Shl1(shift) == 0 && c in pool.used[n]
    {
      ChunkFacts(shift);
      Aligned(p, start, Shl1(shift), Count(shift));
      DivBelow(p % PAGE_SIZE, Shl1(shift), Count(shift));
      forall b | BlockAt(pool, p, b)
        ensures b == Block(n, c) && p % Shl1(shift) == 0 && c in pool.used[n]
      {
        OnlyChunk(p, n, shift, c, b);
      }
      if p % Shl1(shift) == 0 && c in pool.used[n] {
        assert BlockAt(pool, p, Block(n, c)) by {
          assert Block(n, c) in pool.sizes <==> Live(pool, Block(n, c));
          DividesEvenly(p % PAGE_SIZE, Shl1(shift));
        }
      }
    }

    lemma OnlyChunk(p: nat, n: nat, shift: nat, c: nat, b: Block)
      requires Valid() && start <= p && n == (p - start) / PAGE_SIZE && n < |pool.kinds|
      requires pool.kinds[n] == Chunks(shift) && ShiftOk(shift)
      requires c == p % PAGE_SIZE / Shl1(shift) && p % PAGE_SIZE == (p - start) % PAGE_SIZE
      requires p % Shl1(shift) == p % PAGE_SIZE % Shl1(shift)
      requires BlockAt(pool, p, b)
      ensures b == Block(n, c) && p % Shl1(shift) == 0 && c in pool.used[n]
    {
      Candidate(p, n, b);
      assert Live(pool, b);
      DividesBack(p % PAGE_SIZE, Shl1(shift), b.chunk);
    }

    // the bit that lines 473, 519 and 560 test
    predicate MarkedBusy(n: nat, slab: nat, tag: nat, c: nat)
      reads this`words
    {
      if tag == NGX_SLAB_SMALL then 512 * n + c / 64 < |words| && Bit(words[512 * n + c / 64], c % 64)
      else Bit(slab, if tag == NGX_SLAB_EXACT then c else 32 + c)
    }

    lemma Decoded(p: nat, n: nat, slab: nat, tag: nat, shift: nat, c: nat)
      requires Valid() && start <= p <= end && n == (p - start) / PAGE_SIZE && n < |pool.kinds| && At(n) in desc
      requires !InBitmap(p)
      requires desc[At(n)].slab == slab && desc[At(n)].prev.tag == tag && tag != NGX_SLAB_PAGE
      requires shift == (if tag == NGX_SLAB_EXACT then EXACT_SHIFT else slab % 16) && c == p % PAGE_SIZE / Shl1(shift)
      ensures Verdict(p) == (if p % Shl1(shift) != 0 then WrongChunk
                             else if MarkedBusy(n, slab, tag, c) then Freed else ChunkFree)
      ensures TagOf(shift) == tag && (Verdict(p) == Freed ==> LiveChunk(n, shift, c))
      ensures forall b {:trigger BlockAt(pool, p, b)} :: BlockAt(pool, p, b) ==> Verdict(p) == Freed && b == Block(n, c)
      ensures Verdict(p) == Freed ==> BlockAt(pool, p, Block(n, c))
    {
      assert PageOk(pool, desc, words, n) && UsedOk(pool, n);
      assert pool.kinds[n] == Chunks(shift);
      ChunkFacts(shift);
      ChunkAt(p, n, shift, c);
      assert Busy(desc, words, n, shift, c) <==> c < Reserved(shift) || c in pool.used[n];
      assert MarkedBusy(n, slab, tag, c) == Busy(desc, words, n, shift, c);
      if p % Shl1(shift) == 0 { assert c >= Reserved(shift); }
      assert BlockAt(pool, p, Block(n, c)) <==> p % Shl1(shift) == 0 && c in pool.used[n];
    }

    // lines 474-588: the chunk is in use, and comes back
    method FreeBusy(n: nat, shift: nat, c: nat, tag: nat)
      requires LiveChunk(n, shift, c) && tag == TagOf(shift)
      modifies this`desc, this`words, this`pool
      ensures Valid() && pool.sizes == old(pool).sizes - {Block(n, c)} && |pool.kinds| == |old(pool).kinds|
      ensures Undisturbed(old(pool), pool, old(words), words)
      ensures n < |old(pool).used| && pool.kinds == FreedKinds(old(pool), n, c)
    {
      if tag == NGX_SLAB_SMALL {
        FreeSmall(n, shift, c);
      } else if tag == NGX_SLAB_EXACT {
        FreeExact(n, c);
      } else {
        FreeBig(n, shift, c);
      }
    }

    // lines 464-473, 516-519 and 551-560
    method FreeChunk(p: nat, n: nat, slab: nat, tag: nat) returns (r: FreeResult)
      requires Valid() && start <= p <= end && n == (p - start) / PAGE_SIZE && n < |pool.kinds| && At(n) in desc
      requires !InBitmap(p)
      requires desc[At(n)].slab == slab && desc[At(n)].prev.tag == tag && tag != NGX_SLAB_PAGE
      modifies this`desc, this`words, this`pool
      ensures FreedOnly(old(pool), old(words), p, r) && r == old(Verdict(p))
      ensures r != Freed ==> pool == old(pool) && desc == old(desc) && words == old(words)
    {
      var shift := if tag == NGX_SLAB_EXACT then EXACT_SHIFT else slab % 16;
      var c := p % PAGE_SIZE / Shl1(shift);
      Decoded(p, n, slab, tag, shift, c);
      if p % Shl1(shift) != 0 {
        return WrongChunk;
      }
      if !MarkedBusy(n, slab, tag, c) {
        return ChunkFree;
      }
      r := Freed;
      ChunkRepaid(pool, n, c);
      FreeBusy(n, shift, c, tag);
    }

    // A live block is freed, and its pages with it once they are empty. Any other pointer is
    // refused, but for the head of a free run, which only moves to the front of the free list.
    // Excluded are pointers into a bitmap, and past the last page but not past pool->end.
    method FreeLocked(p: nat) returns (r: FreeResult)
      requires Valid() && (start <= p <= end ==> (p - start) / PAGE_SIZE < |pool.kinds|) && !InBitmap(p)
      modifies this`desc, this`words, this`pool
      ensures FreedOnly(old(pool), old(words), p, r) && r == old(Verdict(p))
      ensures r != Freed ==> pool == old(pool) && desc == old(desc) && words == old(words)
    {
      if p < start || p > end {
        forall b | BlockAt(pool, p, b) ensures false { Within(pool, b); }
        return OutsideOfPool;
      }
      var n := (p - start) / PAGE_SIZE;
      assert PageOk(pool, desc, words, n);
      var slab, tag := desc[At(n)].slab, desc[At(n)].prev.tag;
      if tag == NGX_SLAB_PAGE {
        r := FreePage(p, n, slab);
      } else {
        r := FreeChunk(p, n, slab, tag);
      }
    }

    // a user writes word j of the page area, inside one of the live blocks
    method Store(j: nat, v: nat, ghost b: Block)
      requires Valid() && b in pool.sizes && j < |words| && Inside(pool, b, j) && v < WORD
      modifies this`words
      ensures Valid() && words == old(words)[j := v]
      ensures forall x {:trigger SameBytes(pool, pool, old(words), words, x)} ::
                x in pool.sizes && x != b ==> SameBytes(pool, pool, old(words), words, x)
    {
      StoreRep(pool, desc, words, b, j, v);
      words := words[j := v];
    }

    lemma ListedFacts(i: nat, shift: nat)
      requires Listed(i, shift)
      ensures PageOk(pool, desc, words, i) && At(i) in desc && 512 * i + 512 <= |words|
      ensures SlabOk(desc[At(i)].slab, shift)
      ensures !Full(pool, i) && !LooksFull(desc, words, i, shift)
      ensures shift < EXACT_SHIFT ==> 1 <= Count(shift) / 64 <= 8
      ensures desc[At(i)].prev.to in desc && desc[At(i)].next in desc && desc[At(i)].prev.to != At(i)
      ensures desc[At(i)].next != At(i)
      ensures desc[At(i)].next != Null
    {
      var s := shift - MIN_SHIFT;
      ChunkFacts(shift);
      assert SlotOk(pool, s) && PageOk(pool, desc, words, i);
      FullTest(pool, desc, words, i);
      var j := IndexOf(pool.partial[s], i);
      SlotMember(pool, desc, words, s, j);
      assert LinkedAt(desc, Slot(s), TagOf(shift), pool.partial[s], j);
    }

    lemma SomeClear(w: nat)
      requires w < WORD && w != NGX_SLAB_BUSY
      ensures exists b :: 0 <= b < 64 && !Bit(w, b)
    {
      Powers();
      AllBits(w, 64);
    }

    // a clear bit belongs to a chunk that is neither reserved nor handed out
    lemma ClearIsFree(i: nat, shift: nat, c: nat)
      requires Listed(i, shift) && c < Count(shift) && !Busy(desc, words, i, shift, c)
      ensures TakesChunk(pool, desc, words, i, shift, c)
    {
      assert PageOk(pool, desc, words, i);
      TakesChunkFacts(pool, desc, words, i, shift, c);
    }

  }

  lemma SomeBigClear(slab: nat, shift: nat)
    requires ShiftOk(shift) && shift > EXACT_SHIFT && SlabOk(slab, shift) && slab / MAP_UNIT != Shl1(Count(shift)) - 1
    ensures exists b :: 32 <= b < 32 + Count(shift) && !Bit(slab, b)
  {
    MapBits(slab, shift, 0);
    AllBits(slab / MAP_UNIT, Count(shift));
    var c: nat :| c < Count(shift) && !Bit(slab / MAP_UNIT, c);
    MapBits(slab, shift, c);
    assert !Bit(slab, 32 + c);
  }

  // the test for a full page, after the bit of c was set
  lemma FullAfter(a: Pool, d: Table, w: seq<nat>, i: nat, shift: nat, c: nat)
    requires TakesChunk(a, d, w, i, shift, c)
    ensures LooksFull(MarkedTable(d, i, shift, c), MarkedWords(w, i, shift, c), i, shift) <==>
        Full(a.(used := a.used[i := a.used[i] + {c}]), i)
  {
    MarkedPage(a, d, w, i, shift, c);
    FullTest(a.(used := a.used[i := a.used[i] + {c}]), MarkedTable(d, i, shift, c), MarkedWords(w, i, shift, c), i);
  }

  lemma ClassBounds(shift: nat, size: nat)
    requires 1 <= shift && 8 < size < MAX_SIZE && size - 1 < Shl1(shift) && Shl1(shift - 1) <= size - 1
    ensures 4 <= shift <= 11
  {
    assert Shl1(3) == 8 && Shl1(4) == 16;
    assert Shl1(11) == 2 * Shl1(10) && Shl1(10) == 2 * Shl1(9) && Shl1(9) == 2 * Shl1(8) && Shl1(8) == 256;
    if shift <= 3 { Shl1Grows(shift, 3); }
    if shift >= 12 { Shl1Grows(11, shift - 1); }
  }
}
