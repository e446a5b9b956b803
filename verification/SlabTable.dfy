// How src/core/ngx_slab.c writes the pool down: page descriptors linked into
// lists, tag bits in their prev words, and the bitmaps of the chunk pages.
module SlabTable {
  import opened Bits
  import opened Sequences
  import opened SlabPool

  // The addresses of ngx_slab_page_t structures: pool->free, slots[k], pool->pages[i].
  datatype Link = Null | Free | Slot(k: nat) | At(i: nat)

  // A prev word: an address, which is a multiple of 4, and the page type in its two low bits.
  datatype Tagged = Tagged(to: Link, tag: nat)

  // ngx_slab_page_t
  datatype Page = Page(slab: nat, next: Link, prev: Tagged)
  type Table = map<Link, Page>

  const NGX_SLAB_PAGE: nat := 0
  const NGX_SLAB_BIG: nat := 1
  const NGX_SLAB_EXACT: nat := 2
  const NGX_SLAB_SMALL: nat := 3
  const WORD: nat := 0x1_0000_0000_0000_0000
  const NGX_SLAB_PAGE_BUSY: nat := WORD - 1
  const NGX_SLAB_PAGE_START: nat := 0x8000_0000_0000_0000
  const NGX_SLAB_BUSY: nat := WORD - 1
  const MAP_UNIT: nat := 0x1_0000_0000    // 1 << NGX_SLAB_MAP_SHIFT

  function TagOf(shift: nat): nat {
    if shift < EXACT_SHIFT then NGX_SLAB_SMALL else if shift == EXACT_SHIFT then NGX_SLAB_EXACT else NGX_SLAB_BIG
  }

  // --- lists -----------------------------------------------------------------------

  ghost function NextOf(head: Link, xs: seq<nat>, j: nat): Link { if j + 1 < |xs| then At(xs[j + 1]) else head }
  ghost function PrevOf(head: Link, xs: seq<nat>, j: nat): Link { if 0 < j <= |xs| then At(xs[j - 1]) else head }

  ghost predicate LinkedAt(d: Table, head: Link, tag: nat, xs: seq<nat>, j: nat) {
    && j < |xs| && At(xs[j]) in d && d[At(xs[j])].next == NextOf(head, xs, j)
    && d[At(xs[j])].prev == Tagged(PrevOf(head, xs, j), tag)
  }

  // a ring through head and the descriptors xs; the prev word of the head is not kept
  ghost predicate Linked(d: Table, head: Link, tag: nat, xs: seq<nat>) {
    && head in d && (head == Free || head.Slot?) && NoDup(xs) && d[head].next == (if xs == [] then head else At(xs[0]))
    && forall j {:trigger LinkedAt(d, head, tag, xs, j)} :: 0 <= j < |xs| ==> LinkedAt(d, head, tag, xs, j)
  }

  lemma ListFrame(d: Table, d': Table, head: Link, tag: nat, xs: seq<nat>)
    requires Linked(d, head, tag, xs) && head in d' && d'[head].next == d[head].next
    requires forall x :: x in xs ==>
        At(x) in d && At(x) in d' && d'[At(x)].next == d[At(x)].next && d'[At(x)].prev == d[At(x)].prev
    ensures Linked(d', head, tag, xs)
  {
    forall j | 0 <= j < |xs| ensures LinkedAt(d', head, tag, xs, j) {
      assert LinkedAt(d, head, tag, xs, j) && xs[j] in xs;
    }
  }

  // prev->next = page->next; page->next->prev = page->prev;
  ghost function Unlinked(d: Table, page: Link): Table
    requires page in d && d[page].prev.to in d && d[page].next in d
  {
    var d1 := d[d[page].prev.to := d[d[page].prev.to].(next := d[page].next)];
    d1[d[page].next := d1[d[page].next].(prev := d[page].prev)]
  }

  lemma UnlinkedList(d: Table, head: Link, tag: nat, xs: seq<nat>, j: nat)
    requires Linked(d, head, tag, xs) && j < |xs|
    ensures At(xs[j]) in d && d[At(xs[j])].prev.to in d && d[At(xs[j])].next in d
    ensures Linked(Unlinked(d, At(xs[j])), head, tag, Without(xs, j))
  {
    var ys := Without(xs, j);
    assert LinkedAt(d, head, tag, xs, j);
    assert j > 0 ==> LinkedAt(d, head, tag, xs, j - 1);
    assert j + 1 < |xs| ==> LinkedAt(d, head, tag, xs, j + 1);
    var d' := Unlinked(d, At(xs[j]));
    forall i | 0 <= i < |ys| ensures LinkedAt(d', head, tag, ys, i) {
      assert LinkedAt(d, head, tag, xs, if i < j then i else i + 1);
    }
  }

  // a descriptor goes to the front of a list
  ghost function Pushed(d: Table, head: Link, tag: nat, i: nat): Table
    requires head in d && At(i) in d && d[head].next in d
  {
    var next := d[head].next;
    var d1 := d[At(i) := d[At(i)].(next := next, prev := Tagged(head, tag))];
    var d2 := d1[head := d1[head].(next := At(i))];
    d2[next := d2[next].(prev := Tagged(At(i), tag))]
  }

  lemma PushedList(d: Table, head: Link, tag: nat, xs: seq<nat>, i: nat)
    requires Linked(d, head, tag, xs) && i !in xs && At(i) in d && d[head].next in d
    ensures Linked(Pushed(d, head, tag, i), head, tag, [i] + xs)
  {
    var ys := [i] + xs;
    var d' := Pushed(d, head, tag, i);
    assert xs != [] ==> LinkedAt(d, head, tag, xs, 0);
    forall j | 0 <= j < |ys| ensures LinkedAt(d', head, tag, ys, j) {
      if j > 0 { assert LinkedAt(d, head, tag, xs, j - 1); }
    }
  }

  // the rest of a free run takes the place of the whole run (lines 662-670)
  ghost function Split(d: Table, page: Link, rest: Link, len: nat): Table
    requires page in d && d[page].prev.to in d && d[page].next in d && rest in d
  {
    var d1 := d[rest := Page(len, d[page].next, d[page].prev)];
    var d2 := d1[d[page].prev.to := d1[d[page].prev.to].(next := rest)];
    d2[d[page].next := d2[d[page].next].(prev := Tagged(rest, NGX_SLAB_PAGE))]
  }

  lemma SplitList(d: Table, head: Link, xs: seq<nat>, j: nat, r: nat, len: nat)
    requires Linked(d, head, NGX_SLAB_PAGE, xs) && j < |xs| && r !in xs && At(r) in d
    ensures At(xs[j]) in d && d[At(xs[j])].prev.to in d && d[At(xs[j])].next in d
    ensures Linked(Split(d, At(xs[j]), At(r), len), head, NGX_SLAB_PAGE, xs[j := r])
  {
    var ys := xs[j := r];
    assert LinkedAt(d, head, NGX_SLAB_PAGE, xs, j);
    assert j > 0 ==> LinkedAt(d, head, NGX_SLAB_PAGE, xs, j - 1);
    assert j + 1 < |xs| ==> LinkedAt(d, head, NGX_SLAB_PAGE, xs, j + 1);
    var d' := Split(d, At(xs[j]), At(r), len);
    forall i | 0 <= i < |ys| ensures LinkedAt(d', head, NGX_SLAB_PAGE, ys, i) {
      assert LinkedAt(d, head, NGX_SLAB_PAGE, xs, i);
    }
  }

  // --- pages -----------------------------------------------------------------------

  // bitmap[n] of page i
  function Bitmap(w: seq<nat>, i: nat, n: nat): nat { if 512 * i + n < |w| then w[512 * i + n] else 0 }

  // the bit that says whether chunk c of page i is in use
  ghost predicate Busy(d: Table, w: seq<nat>, i: nat, shift: nat, c: nat) {
    if shift < EXACT_SHIFT then Bit(Bitmap(w, i, c / 64), c % 64)
    else At(i) in d && Bit(d[At(i)].slab, if shift == EXACT_SHIFT then c else 32 + c)
  }

  ghost predicate ChunksOk(a: Pool, d: Table, w: seq<nat>, i: nat, shift: nat)
    requires ShiftOk(shift) && i < |a.used|
  {
    forall c: nat {:trigger Busy(d, w, i, shift, c)} :: c < Count(shift) ==>
        (Busy(d, w, i, shift, c) <==> c < Reserved(shift) || c in a.used[i])
  }

  ghost predicate SlabOk(slab: nat, shift: nat)
    requires ShiftOk(shift)
  {
    && (shift < EXACT_SHIFT ==> slab == shift)
    && (shift == EXACT_SHIFT ==> slab < Shl1(64))
    && (shift > EXACT_SHIFT ==> slab % 16 == shift && slab < Shl1(32 + Count(shift)))
  }

  ghost predicate PageOk(a: Pool, d: Table, w: seq<nat>, i: nat) {
    && At(i) in d && i < |a.kinds| && i < |a.used|
    && match a.kinds[i]
       case FreeRun(len) => d[At(i)].slab == len && d[At(i)].prev.tag == NGX_SLAB_PAGE
       case FreeTail(_) => d[At(i)] == Page(0, Null, Tagged(Null, NGX_SLAB_PAGE))
       case Run(len) => d[At(i)] == Page(NGX_SLAB_PAGE_START + len, Null, Tagged(Null, NGX_SLAB_PAGE))
       case RunTail(_) => d[At(i)] == Page(NGX_SLAB_PAGE_BUSY, Null, Tagged(Null, NGX_SLAB_PAGE))
       case Chunks(shift) =>
         && ShiftOk(shift) && d[At(i)].prev.tag == TagOf(shift) && SlabOk(d[At(i)].slab, shift)
         && ChunksOk(a, d, w, i, shift)
         && (Full(a, i) <==> d[At(i)].next == Null) && (Full(a, i) ==> d[At(i)].prev.to == Null)
  }

  ghost predicate Links(d: Table, n: nat) {
    && Free in d && Null !in d && (forall k :: 0 <= k < 9 ==> Slot(k) in d) && (forall i :: 0 <= i < n ==> At(i) in d)
    && (forall k: nat :: Slot(k) in d ==> k < 9) && (forall i: nat :: At(i) in d ==> i < n)
  }

  // descriptors d and page memory w represent the pool a
  ghost predicate Rep(a: Pool, d: Table, w: seq<nat>) {
    && Links(d, |a.kinds|) && |a.partial| == 9 && |w| == 512 * |a.kinds| && |a.kinds| < 0x8000_0000_0000_0000
    && (forall j :: 0 <= j < |w| ==> w[j] < WORD)
    && (forall i {:trigger PageOk(a, d, w, i)} :: 0 <= i < |a.kinds| ==> PageOk(a, d, w, i))
    && Linked(d, Free, NGX_SLAB_PAGE, a.freeRuns)
    && (forall k {:trigger a.partial[k]} :: 0 <= k < 9 ==> Linked(d, Slot(k), TagOf(k + MIN_SHIFT), a.partial[k]))
  }

  // what keeps the representation of a page: its use, its slab word, its list links up to relinking, its memory
  ghost predicate Keeps(a: Pool, a': Pool, d: Table, d': Table, w: seq<nat>, w': seq<nat>, i: nat) {
    && i < |a.kinds| && i < |a'.kinds| && i < |a.used| && i < |a'.used| && a'.kinds[i] == a.kinds[i]
    && a'.used[i] == a.used[i]
    && |w'| == |w| && 512 * i + 512 <= |w| && (forall j :: 512 * i <= j < 512 * i + 512 ==> w'[j] == w[j])
    && At(i) in d && At(i) in d' && d'[At(i)].slab == d[At(i)].slab
    && (d'[At(i)] == d[At(i)] ||
        (d[At(i)].next != Null && d'[At(i)].next != Null && d'[At(i)].prev.tag == d[At(i)].prev.tag
                                  && (a.kinds[i].FreeRun? || a.kinds[i].Chunks?)))
  }

  lemma KeptPage(a: Pool, a': Pool, d: Table, d': Table, w: seq<nat>, w': seq<nat>, i: nat)
    requires PageOk(a, d, w, i) && Keeps(a, a', d, d', w, w', i)
    ensures PageOk(a', d', w', i)
  {
    assert Full(a', i) <==> Full(a, i);
    match a.kinds[i]
    case Chunks(shift) =>
      ChunkFacts(shift);
      forall c: nat | c < Count(shift)
        ensures Busy(d', w', i, shift, c) <==> c < Reserved(shift) || c in a'.used[i]
      {
        assert Busy(d, w, i, shift, c) <==> c < Reserved(shift) || c in a.used[i];
      }
    case _ =>
  }

  // --- whole pages -----------------------------------------------------------------

  // lines 679-696: the descriptors of an allocated run
  ghost function RunTable(d: Table, i: nat, k: nat): Table {
    map x | x in d ::
      if x == At(i) then Page(NGX_SLAB_PAGE_START + k, Null, Tagged(Null, NGX_SLAB_PAGE))
      else if x.At? && i < x.i < i + k then Page(NGX_SLAB_PAGE_BUSY, Null, Tagged(Null, NGX_SLAB_PAGE))
      else d[x]
  }

  ghost function TakenTable(d: Table, i: nat, k: nat): Table
    requires At(i) in d && d[At(i)].prev.to in d && d[At(i)].next in d && (k < d[At(i)].slab ==> At(i + k) in d)
  {
    RunTable(if k < d[At(i)].slab then Split(d, At(i), At(i + k), d[At(i)].slab - k) else Unlinked(d, At(i)), i, k)
  }

  lemma FreeMember(a: Pool, d: Table, w: seq<nat>, j: nat)
    requires Rep(a, d, w) && Inv(a) && j < |a.freeRuns|
    ensures var i := a.freeRuns[j]; i < |a.kinds| && a.kinds[i].FreeRun? && KindOk(a.kinds, i) && PageOk(a, d, w, i)
    ensures LinkedAt(d, Free, NGX_SLAB_PAGE, a.freeRuns, j)
    ensures var p := d[At(a.freeRuns[j])];
      && p.prev.to in d && p.next in d && p.slab == a.kinds[a.freeRuns[j]].len && p.prev.tag == NGX_SLAB_PAGE
      && (p.prev.to == Free || (p.prev.to.At? && p.prev.to.i in a.freeRuns))
      && (p.next == Free || (p.next.At? && p.next.i in a.freeRuns))
  {
    assert a.freeRuns[j] in a.freeRuns;
    assert j > 0 ==> LinkedAt(d, Free, NGX_SLAB_PAGE, a.freeRuns, j - 1);
    assert j + 1 < |a.freeRuns| ==> LinkedAt(d, Free, NGX_SLAB_PAGE, a.freeRuns, j + 1);
  }

  lemma TakeRunPage(a: Pool, d: Table, w: seq<nat>, j: nat, k: nat, size: nat, x: nat)
    requires Rep(a, d, w) && Inv(a) && j < |a.freeRuns| && a.freeRuns[j] < |a.kinds| && a.kinds[a.freeRuns[j]].FreeRun?
    requires 1 <= k <= a.kinds[a.freeRuns[j]].len && x < |a.kinds|
    requires At(a.freeRuns[j]) in d && d[At(a.freeRuns[j])].prev.to in d && d[At(a.freeRuns[j])].next in d
    requires d[At(a.freeRuns[j])].slab == a.kinds[a.freeRuns[j]].len
    requires k < a.kinds[a.freeRuns[j]].len ==> At(a.freeRuns[j] + k) in d
    ensures PageOk(TakeRun(a, j, k, size), TakenTable(d, a.freeRuns[j], k), w, x)
  {
    var i := a.freeRuns[j];
    var p := d[At(i)];
    FreeMember(a, d, w, j);
    if i <= x < i + a.kinds[i].len {
      assert PageOk(a, d, w, x) && KindOk(a.kinds, x);
      assert p.prev.to.At? ==> PageOk(a, d, w, p.prev.to.i) && a.kinds[p.prev.to.i].FreeRun?;
      assert p.next.At? ==> PageOk(a, d, w, p.next.i) && a.kinds[p.next.i].FreeRun?;
    } else {
      TakeOtherPage(a, d, w, j, k, size, x);
    }
  }

  // the pages around the run
  lemma TakeOtherPage(a: Pool, d: Table, w: seq<nat>, j: nat, k: nat, size: nat, x: nat)
    requires Rep(a, d, w) && Inv(a) && j < |a.freeRuns| && a.freeRuns[j] < |a.kinds| && a.kinds[a.freeRuns[j]].FreeRun?
    requires 1 <= k <= a.kinds[a.freeRuns[j]].len && x < |a.kinds|
    requires At(a.freeRuns[j]) in d && d[At(a.freeRuns[j])].prev.to in d && d[At(a.freeRuns[j])].next in d
    requires d[At(a.freeRuns[j])].slab == a.kinds[a.freeRuns[j]].len
    requires k < a.kinds[a.freeRuns[j]].len ==> At(a.freeRuns[j] + k) in d
    requires !(a.freeRuns[j] <= x < a.freeRuns[j] + a.kinds[a.freeRuns[j]].len)
    ensures PageOk(TakeRun(a, j, k, size), TakenTable(d, a.freeRuns[j], k), w, x)
  {
    var i := a.freeRuns[j];
    var len := a.kinds[i].len;
    var a' := TakeRun(a, j, k, size);
    FreeMember(a, d, w, j);
    var d' := TakenTable(d, i, k);
    assert PageOk(a, d, w, x) && KindOk(a.kinds, x);
    assert a'.kinds[x] == a.kinds[x];
    var p := d[At(i)];
    if At(x) == p.prev.to || At(x) == p.next {
      assert d'[At(x)].slab == d[At(x)].slab && d'[At(x)].prev.tag == d[At(x)].prev.tag;
    } else {
      assert d'[At(x)] == d[At(x)];
      KeptPage(a, a', d, d', w, w, x);
    }
  }

  ghost predicate Takes(a: Pool, d: Table, w: seq<nat>, j: nat, k: nat) {
    && Rep(a, d, w) && Inv(a) && j < |a.freeRuns| && a.freeRuns[j] < |a.kinds| && a.kinds[a.freeRuns[j]].FreeRun?
    && 1 <= k <= a.kinds[a.freeRuns[j]].len
    && At(a.freeRuns[j]) in d && d[At(a.freeRuns[j])].prev.to in d && d[At(a.freeRuns[j])].next in d
    && d[At(a.freeRuns[j])].slab == a.kinds[a.freeRuns[j]].len
    && (k < a.kinds[a.freeRuns[j]].len ==> At(a.freeRuns[j] + k) in d)
  }

  lemma TakeRunFreeList(a: Pool, d: Table, w: seq<nat>, j: nat, k: nat, size: nat)
    requires Takes(a, d, w, j, k)
    ensures Linked(TakenTable(d, a.freeRuns[j], k), Free, NGX_SLAB_PAGE, TakeRun(a, j, k, size).freeRuns)
  {
    var i := a.freeRuns[j];
    var len := a.kinds[i].len;
    var a', d' := TakeRun(a, j, k, size), TakenTable(d, i, k);
    assert KindOk(a.kinds, i);
    TakenFreeList(a, j, k, size);
    if k < len { RunSplit(a, d, w, j, k, size); } else { RunUnlinked(a, d, w, j, k, size); }
  }

  lemma RunSplit(a: Pool, d: Table, w: seq<nat>, j: nat, k: nat, size: nat)
    requires Takes(a, d, w, j, k) && k < a.kinds[a.freeRuns[j]].len
    ensures Linked(TakenTable(d, a.freeRuns[j], k), Free, NGX_SLAB_PAGE, TakeRun(a, j, k, size).freeRuns)
  {
    var i := a.freeRuns[j];
    var len := a.kinds[i].len;
    assert KindOk(a.kinds, i) && a.kinds[i + k] == FreeTail(i);
    SplitList(d, Free, a.freeRuns, j, i + k, len - k);
    OutsideRun(a, i, k, a.freeRuns[j := i + k]);
    RunTableList(Split(d, At(i), At(i + k), len - k), i, k, a.freeRuns[j := i + k]);
  }

  // the free list does not go through the pages that were taken
  lemma OutsideRun(a: Pool, i: nat, k: nat, xs: seq<nat>)
    requires Inv(a) && i in a.freeRuns && i < |a.kinds| && a.kinds[i].FreeRun? && k <= a.kinds[i].len
    requires NoDup(xs) && i !in xs && forall x :: x in xs ==> x in a.freeRuns || x == i + k
    ensures forall x :: x in xs ==> !(i <= x < i + k)
  {
    assert KindOk(a.kinds, i);
  }

  lemma RunTableList(d: Table, i: nat, k: nat, xs: seq<nat>)
    requires Linked(d, Free, NGX_SLAB_PAGE, xs) && 1 <= k && forall x :: x in xs ==> !(i <= x < i + k)
    ensures Linked(RunTable(d, i, k), Free, NGX_SLAB_PAGE, xs)
  {
    forall x | x in xs ensures At(x) in d {
      var j :| 0 <= j < |xs| && xs[j] == x;
      assert LinkedAt(d, Free, NGX_SLAB_PAGE, xs, j);
    }
    ListFrame(d, RunTable(d, i, k), Free, NGX_SLAB_PAGE, xs);
  }

  lemma RunUnlinked(a: Pool, d: Table, w: seq<nat>, j: nat, k: nat, size: nat)
    requires Takes(a, d, w, j, k) && k == a.kinds[a.freeRuns[j]].len
    ensures Linked(TakenTable(d, a.freeRuns[j], k), Free, NGX_SLAB_PAGE, TakeRun(a, j, k, size).freeRuns)
  {
    var i := a.freeRuns[j];
    UnlinkedList(d, Free, NGX_SLAB_PAGE, a.freeRuns, j);
    TakenFreeList(a, j, k, size);
    ListFrame(Unlinked(d, At(i)), TakenTable(d, i, k), Free, NGX_SLAB_PAGE, TakeRun(a, j, k, size).freeRuns);
  }

  lemma TakeRunSlot(a: Pool, d: Table, w: seq<nat>, j: nat, k: nat, s: nat)
    requires Takes(a, d, w, j, k) && s < 9
    ensures Linked(TakenTable(d, a.freeRuns[j], k), Slot(s), TagOf(s + MIN_SHIFT), a.partial[s])
  {
    var i := a.freeRuns[j];
    FreeMember(a, d, w, j);
    assert SlotOk(a, s) && KindOk(a.kinds, i);
    var d' := TakenTable(d, i, k);
    forall x | x in a.partial[s] ensures At(x) in d && d'[At(x)] == d[At(x)] {
      assert a.kinds[x] == Chunks(s + MIN_SHIFT);
      assert d[At(i)].prev.to.At? ==> a.kinds[d[At(i)].prev.to.i].FreeRun?;
      assert d[At(i)].next.At? ==> a.kinds[d[At(i)].next.i].FreeRun?;
    }
    ListFrame(d, d', Slot(s), TagOf(s + MIN_SHIFT), a.partial[s]);
  }

  // The run handed out by ngx_slab_alloc_pages.
  lemma TakeRunRep(a: Pool, d: Table, w: seq<nat>, j: nat, k: nat, size: nat)
    requires Rep(a, d, w) && Inv(a) && j < |a.freeRuns| && a.freeRuns[j] < |a.kinds| && a.kinds[a.freeRuns[j]].FreeRun?
    requires 1 <= k <= a.kinds[a.freeRuns[j]].len
    ensures Takes(a, d, w, j, k) && Rep(TakeRun(a, j, k, size), TakenTable(d, a.freeRuns[j], k), w)
  {
    FreeMember(a, d, w, j);
    var a', d' := TakeRun(a, j, k, size), TakenTable(d, a.freeRuns[j], k);
    forall x | 0 <= x < |a'.kinds| ensures PageOk(a', d', w, x) { TakeRunPage(a, d, w, j, k, size, x); }
    TakeRunFreeList(a, d, w, j, k, size);
    forall s | 0 <= s < 9 ensures Linked(d', Slot(s), TagOf(s + MIN_SHIFT), a'.partial[s]) {
      TakeRunSlot(a, d, w, j, k, s);
    }
  }
}
