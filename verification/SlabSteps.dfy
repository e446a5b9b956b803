// What single steps of ngx_slab_alloc_locked and ngx_slab_free_locked do to the
// representation of the pool.
module SlabSteps {
  import opened Bits
  import opened Sequences
  import opened SlabPool
  import opened SlabTable
  import opened SlabChunks

  // --- freeing pages -----------------------------------------------------------------

  // lines 714-718: the head of the run gets its length, the other descriptors are zeroed
  function ZeroedTable(d: Table, i: nat, k: nat): Table {
    map x | x in d ::
      if x == At(i) then d[x].(slab := k)
      else if x.At? && i < x.i < i + k then Page(0, Null, Tagged(Null, NGX_SLAB_PAGE))
      else d[x]
  }

  lemma GiveRunRep(a: Pool, d: Table, w: seq<nat>, i: nat)
    requires Rep(a, d, w) && Inv(a) && i < |a.kinds| && a.kinds[i].Run?
    ensures At(i) in d && Free in d && d[Free].next in d && ZeroedTable(d, i, a.kinds[i].len)[Free].next in d
    ensures Rep(GiveRun(a, i), Pushed(ZeroedTable(d, i, a.kinds[i].len), Free, NGX_SLAB_PAGE, i), w)
  {
    var d1 := ZeroedTable(d, i, a.kinds[i].len);
    assert PageOk(a, d, w, i) && KindOk(a.kinds, i);
    assert a.freeRuns != [] ==> LinkedAt(d, Free, NGX_SLAB_PAGE, a.freeRuns, 0) && a.freeRuns[0] in a.freeRuns;
    var a', d' := GiveRun(a, i), Pushed(d1, Free, NGX_SLAB_PAGE, i);
    forall x | 0 <= x < |a'.kinds| ensures PageOk(a', d', w, x) { GivenPage(a, d, w, i, d1, d', x); }
    assert i !in a.freeRuns;
    forall x | x in a.freeRuns ensures At(x) in d1 && d1[At(x)] == d[At(x)] { assert a.kinds[x].FreeRun?; }
    ListFrame(d, d1, Free, NGX_SLAB_PAGE, a.freeRuns);
    PushedList(d1, Free, NGX_SLAB_PAGE, a.freeRuns, i);
    forall s | 0 <= s < 9
      ensures Linked(d', Slot(s), TagOf(s + MIN_SHIFT), a'.partial[s])
    {
      GivenSlot(a, d, w, i, d1, d', s);
    }
  }

  ghost predicate GivesRun(a: Pool, d: Table, w: seq<nat>, i: nat, d1: Table, d': Table) {
    && Rep(a, d, w) && Inv(a) && i < |a.kinds| && a.kinds[i].Run? && d1 == ZeroedTable(d, i, a.kinds[i].len)
    && Free in d1 && At(i) in d1 && d1[Free].next in d1 && d' == Pushed(d1, Free, NGX_SLAB_PAGE, i)
    && (d[Free].next == Free || (d[Free].next.At? && d[Free].next.i in a.freeRuns))
  }

  lemma GivenPage(a: Pool, d: Table, w: seq<nat>, i: nat, d1: Table, d': Table, x: nat)
    requires GivesRun(a, d, w, i, d1, d') && x < |a.kinds|
    ensures PageOk(GiveRun(a, i), d', w, x)
  {
    assert PageOk(a, d, w, x) && PageOk(a, d, w, i) && KindOk(a.kinds, i);
    if !(i <= x < i + a.kinds[i].len) {
      var next := d[Free].next;
      assert next.At? ==> a.kinds[next.i].FreeRun?;
      if next != At(x) { assert d'[At(x)] == d[At(x)]; KeptPage(a, GiveRun(a, i), d, d', w, w, x); }
    }
  }

  lemma GivenSlot(a: Pool, d: Table, w: seq<nat>, i: nat, d1: Table, d': Table, s: nat)
    requires GivesRun(a, d, w, i, d1, d') && s < 9
    ensures Linked(d', Slot(s), TagOf(s + MIN_SHIFT), a.partial[s])
  {
    assert SlotOk(a, s) && KindOk(a.kinds, i);
    forall x | x in a.partial[s] ensures At(x) in d && d'[At(x)] == d[At(x)] {
      assert a.kinds[x].Chunks?;
      assert d[Free].next.At? ==> a.kinds[d[Free].next.i].FreeRun?;
    }
    ListFrame(d, d', Slot(s), TagOf(s + MIN_SHIFT), a.partial[s]);
  }

  // a chunk page after its last chunk was freed, and then the page
  ghost function FreedChunkPage(a: Pool, i: nat, s: nat): Pool
    requires i < |a.kinds| && i < |a.used| && s < |a.partial| && i in a.partial[s]
  {
    a.(kinds := a.kinds[i := FreeRun(1)], used := a.used[i := {}], freeRuns := [i] + a.freeRuns,
       partial := a.partial[s := Without(a.partial[s], IndexOf(a.partial[s], i))])
  }

  // the lists and pages of a, except for how much of page i is in use
  ghost predicate NearlyInv(a: Pool, i: nat) {
    && |a.used| == |a.kinds| && |a.partial| == 9 && Tiled(a.kinds) && FreeListOk(a)
    && (forall k {:trigger SlotOk(a, k)} :: 0 <= k < 9 ==> SlotOk(a, k))
    && i < |a.kinds| && a.kinds[i].Chunks? && ShiftOk(a.kinds[i].shift) && !Full(a, i)
  }

  lemma SlotMember(a: Pool, d: Table, w: seq<nat>, s: nat, j: nat)
    requires Rep(a, d, w) && |a.used| == |a.kinds| && s < 9 && SlotOk(a, s) && j < |a.partial[s]|
    ensures LinkedAt(d, Slot(s), TagOf(s + MIN_SHIFT), a.partial[s], j)
    ensures var p := d[At(a.partial[s][j])]; p.prev.to in d && p.next in d && p.prev.tag == TagOf(s + MIN_SHIFT)
    ensures var p := d[At(a.partial[s][j])];
      && (p.prev.to == Slot(s) || (p.prev.to.At? && p.prev.to.i in a.partial[s]))
      && (p.next == Slot(s) || (p.next.At? && p.next.i in a.partial[s]))
  {
    assert Linked(d, Slot(s), TagOf(s + MIN_SHIFT), a.partial[s]);
    assert j > 0 ==> LinkedAt(d, Slot(s), TagOf(s + MIN_SHIFT), a.partial[s], j - 1);
    assert j + 1 < |a.partial[s]| ==> LinkedAt(d, Slot(s), TagOf(s + MIN_SHIFT), a.partial[s], j + 1);
  }

  lemma FreedChunkPagePages(a: Pool, d: Table, w: seq<nat>, i: nat, s: nat, d1: Table, d': Table)
    requires Rep(a, d, w) && NearlyInv(a, i) && s + MIN_SHIFT == a.kinds[i].shift && s < 9 && i in a.partial[s]
    requires At(i) in d && d[At(i)].prev.to in d && d[At(i)].next in d
    requires d1 == Unlinked(d[At(i) := d[At(i)].(slab := 1)], At(i)) && Free in d1 && At(i) in d1 && d1[Free].next in d1
    requires d' == Pushed(d1, Free, NGX_SLAB_PAGE, i)
    ensures forall x :: 0 <= x < |a.kinds| ==> PageOk(FreedChunkPage(a, i, s), d', w, x)
  {
    var a' := FreedChunkPage(a, i, s);
    var p := d[At(i)];
    SlotMember(a, d, w, s, IndexOf(a.partial[s], i));
    assert a.freeRuns != [] ==> LinkedAt(d, Free, NGX_SLAB_PAGE, a.freeRuns, 0) && a.freeRuns[0] in a.freeRuns;
    forall x | 0 <= x < |a.kinds| ensures PageOk(a', d', w, x) {
      assert PageOk(a, d, w, x) && SlotOk(a, s);
      if x != i {
        if At(x) == d1[Free].next {
          assert a.kinds[x].FreeRun?;
        } else if At(x) == p.prev.to || At(x) == p.next {
          assert x in a.partial[s];
          KeptPage(a, a', d, d', w, w, x);
        } else {
          assert d'[At(x)] == d[At(x)];
          KeptPage(a, a', d, d', w, w, x);
        }
      }
    }
  }

  lemma FreedChunkPageRep(a: Pool, d: Table, w: seq<nat>, i: nat, s: nat)
    requires Rep(a, d, w) && NearlyInv(a, i) && s + MIN_SHIFT == a.kinds[i].shift && s < 9
    ensures i in a.partial[s] && At(i) in d && d[At(i)].prev.to in d && d[At(i)].next in d && d[At(i)].next != Null
    ensures d[At(i)].prev.to != At(i)
    ensures var d1 := Unlinked(d[At(i) := d[At(i)].(slab := 1)], At(i));
      Free in d1 && At(i) in d1 && d1[Free].next in d1 &&
          Rep(FreedChunkPage(a, i, s), Pushed(d1, Free, NGX_SLAB_PAGE, i), w)
  {
    assert SlotOk(a, s);
    var j := IndexOf(a.partial[s], i);
    SlotMember(a, d, w, s, j);
    assert LinkedAt(d, Slot(s), TagOf(s + MIN_SHIFT), a.partial[s], j);
    var d0 := d[At(i) := d[At(i)].(slab := 1)];
    var d1 := Unlinked(d0, At(i));
    assert a.freeRuns != [] ==> LinkedAt(d, Free, NGX_SLAB_PAGE, a.freeRuns, 0) && a.freeRuns[0] in a.freeRuns;
    var a', d' := FreedChunkPage(a, i, s), Pushed(d1, Free, NGX_SLAB_PAGE, i);
    FreedChunkPagePages(a, d, w, i, s, d1, d');
    FreedFreeList(a, d, w, i, s, d1);
    forall k | 0 <= k < 9 ensures Linked(d', Slot(k), TagOf(k + MIN_SHIFT), a'.partial[k]) {
      FreedSlots(a, d, w, i, s, d0, d1, d', k);
    }
  }

  ghost predicate FreesChunkPage(a: Pool, d: Table, w: seq<nat>, i: nat, s: nat, d1: Table) {
    && Rep(a, d, w) && NearlyInv(a, i) && s + MIN_SHIFT == a.kinds[i].shift && s < 9 && i in a.partial[s]
    && At(i) in d && d[At(i)].prev.to in d && d[At(i)].next in d
    && d1 == Unlinked(d[At(i) := d[At(i)].(slab := 1)], At(i)) && Free in d1 && At(i) in d1 && d1[Free].next in d1
  }

  lemma FreedFreeList(a: Pool, d: Table, w: seq<nat>, i: nat, s: nat, d1: Table)
    requires FreesChunkPage(a, d, w, i, s, d1)
    ensures Linked(Pushed(d1, Free, NGX_SLAB_PAGE, i), Free, NGX_SLAB_PAGE, [i] + a.freeRuns)
  {
    assert SlotOk(a, s);
    SlotMember(a, d, w, s, IndexOf(a.partial[s], i));
    forall x | x in a.freeRuns ensures At(x) in d && At(x) in d1 && d1[At(x)] == d[At(x)] {
      assert a.kinds[x].FreeRun?;
      assert d[At(i)].prev.to.At? ==> a.kinds[d[At(i)].prev.to.i].Chunks?;
      assert d[At(i)].next.At? ==> a.kinds[d[At(i)].next.i].Chunks?;
      var j :| 0 <= j < |a.freeRuns| && a.freeRuns[j] == x;
      assert LinkedAt(d, Free, NGX_SLAB_PAGE, a.freeRuns, j);
    }
    ListFrame(d, d1, Free, NGX_SLAB_PAGE, a.freeRuns);
    PushedList(d1, Free, NGX_SLAB_PAGE, a.freeRuns, i);
  }

  lemma FreedSlots(a: Pool, d: Table, w: seq<nat>, i: nat, s: nat, d0: Table, d1: Table, d': Table, k: nat)
    requires FreesChunkPage(a, d, w, i, s, d1) && d0 == d[At(i) := d[At(i)].(slab := 1)] && k < 9
    requires d' == Pushed(d1, Free, NGX_SLAB_PAGE, i)
    ensures Linked(d', Slot(k), TagOf(k + MIN_SHIFT), FreedChunkPage(a, i, s).partial[k])
  {
    assert SlotOk(a, s) && SlotOk(a, k);
    var j := IndexOf(a.partial[s], i);
    SlotMember(a, d, w, s, j);
    assert Linked(d, Slot(k), TagOf(k + MIN_SHIFT), a.partial[k]);
    assert d1[Free].next != Free ==> LinkedAt(d, Free, NGX_SLAB_PAGE, a.freeRuns, 0) && a.freeRuns[0] in a.freeRuns;
    if k == s {
      ListFrame(d, d0, Slot(s), TagOf(s + MIN_SHIFT), a.partial[s]);
      UnlinkedList(d0, Slot(s), TagOf(s + MIN_SHIFT), a.partial[s], j);
      WithoutOne(a.partial[s], i);
      ListFrame(d1, d', Slot(s), TagOf(s + MIN_SHIFT), Without(a.partial[s], j));
    } else {
      forall x | x in a.partial[k] ensures At(x) in d && At(x) in d' && d'[At(x)] == d[At(x)] {
        assert a.kinds[x] == Chunks(k + MIN_SHIFT);
        assert d[At(i)].prev.to.At? ==> a.kinds[d[At(i)].prev.to.i] == Chunks(s + MIN_SHIFT);
        assert d[At(i)].next.At? ==> a.kinds[d[At(i)].next.i] == Chunks(s + MIN_SHIFT);
        var y :| 0 <= y < |a.partial[k]| && a.partial[k][y] == x;
        assert LinkedAt(d, Slot(k), TagOf(k + MIN_SHIFT), a.partial[k], y);
      }
      ListFrame(d, d', Slot(k), TagOf(k + MIN_SHIFT), a.partial[k]);
    }
  }

  // --- chunks --------------------------------------------------------------------------

  // lines 245-251: a full page leaves its list
  ghost function LeftTable(d: Table, i: nat, tag: nat): Table
    requires At(i) in d && d[At(i)].prev.to in d && d[At(i)].next in d
  {
    var d1 := Unlinked(d, At(i));
    d1[At(i) := d1[At(i)].(next := Null, prev := Tagged(Null, tag))]
  }

  ghost predicate TakesChunk(a: Pool, d: Table, w: seq<nat>, i: nat, shift: nat, c: nat) {
    && Rep(a, d, w) && Inv(a) && i < |a.kinds| && a.kinds[i] == Chunks(shift) && ShiftOk(shift)
    && i in a.partial[shift - MIN_SHIFT] && Reserved(shift) <= c < Count(shift) && c !in a.used[i]
    && At(i) in d && d[At(i)].prev.to in d && d[At(i)].next in d && 512 * i + c / 64 < |w| && 512 * i + 512 <= |w|
  }

  lemma TakesChunkFacts(a: Pool, d: Table, w: seq<nat>, i: nat, shift: nat, c: nat)
    requires Rep(a, d, w) && Inv(a) && i < |a.kinds| && a.kinds[i] == Chunks(shift) && ShiftOk(shift)
    requires i in a.partial[shift - MIN_SHIFT] && Reserved(shift) <= c < Count(shift) && c !in a.used[i]
    ensures TakesChunk(a, d, w, i, shift, c)
  {
    ChunkFacts(shift);
    assert SlotOk(a, shift - MIN_SHIFT);
    SlotMember(a, d, w, shift - MIN_SHIFT, IndexOf(a.partial[shift - MIN_SHIFT], i));
  }

  // the page itself, with the bit of c set
  lemma MarkedPage(a: Pool, d: Table, w: seq<nat>, i: nat, shift: nat, c: nat)
    requires TakesChunk(a, d, w, i, shift, c)
    ensures var a1 := a.(used := a.used[i := a.used[i] + {c}]);
      ChunksOk(a1, MarkedTable(d, i, shift, c), MarkedWords(w, i, shift, c), i, shift)
    ensures SlabOk(MarkedTable(d, i, shift, c)[At(i)].slab, shift)
    ensures forall j :: 0 <= j < |w| ==> MarkedWords(w, i, shift, c)[j] < WORD
  {
    ChunkFacts(shift);
    Powers();
    assert PageOk(a, d, w, i);
    forall e: nat | e < Count(shift)
      ensures Busy(MarkedTable(d, i, shift, c), MarkedWords(w, i, shift, c), i, shift, e) <==>
          e < Reserved(shift) || e in a.used[i] + {c}
    {
      MarkedBits(d, w, i, shift, c, e);
      assert Busy(d, w, i, shift, e) <==> e < Reserved(shift) || e in a.used[i];
    }
    if shift >= EXACT_SHIFT {
      SlabWordKept(d[At(i)].slab, shift, c);
    } else {
      SetBitBound(w[512 * i + c / 64], c % 64, 64);
    }
  }

  ghost function TakenChunkTable(a: Pool, d: Table, i: nat, shift: nat, c: nat): Table
    requires At(i) in d && d[At(i)].prev.to in d && d[At(i)].next in d && i < |a.used|
  {
    var dm := MarkedTable(d, i, shift, c);
    if Full(a.(used := a.used[i := a.used[i] + {c}]), i) then LeftTable(dm, i, TagOf(shift)) else dm
  }

  lemma TakenChunkPage(a: Pool, d: Table, w: seq<nat>, i: nat, shift: nat, c: nat, size: nat, x: nat)
    requires TakesChunk(a, d, w, i, shift, c) && x < |a.kinds|
    ensures PageOk(TakeChunk(a, i, c, size), TakenChunkTable(a, d, i, shift, c), MarkedWords(w, i, shift, c), x)
  {
    if x == i {
      TakenPageItself(a, d, w, i, shift, c, size);
    } else {
      TakenOtherPage(a, d, w, i, shift, c, size, x);
    }
  }

  lemma TakenOtherPage(a: Pool, d: Table, w: seq<nat>, i: nat, shift: nat, c: nat, size: nat, x: nat)
    requires TakesChunk(a, d, w, i, shift, c) && x < |a.kinds| && x != i
    ensures PageOk(TakeChunk(a, i, c, size), TakenChunkTable(a, d, i, shift, c), MarkedWords(w, i, shift, c), x)
  {
    var a', d', w' := TakeChunk(a, i, c, size), TakenChunkTable(a, d, i, shift, c), MarkedWords(w, i, shift, c);
    var s := shift - MIN_SHIFT;
    ChunkFacts(shift);
    assert PageOk(a, d, w, x) && PageOk(a, d, w, i) && SlotOk(a, s);
    SlotMember(a, d, w, s, IndexOf(a.partial[s], i));
    assert (At(x) == d[At(i)].prev.to || At(x) == d[At(i)].next) ==> x in a.partial[s] && PageOk(a, d, w, x);
    KeptPage(a, a', d, d', w, w', x);
  }

  lemma TakenPageItself(a: Pool, d: Table, w: seq<nat>, i: nat, shift: nat, c: nat, size: nat)
    requires TakesChunk(a, d, w, i, shift, c)
    ensures PageOk(TakeChunk(a, i, c, size), TakenChunkTable(a, d, i, shift, c), MarkedWords(w, i, shift, c), i)
  {
    var a', d', w' := TakeChunk(a, i, c, size), TakenChunkTable(a, d, i, shift, c), MarkedWords(w, i, shift, c);
    assert PageOk(a, d, w, i) && SlotOk(a, shift - MIN_SHIFT);
    SlotMember(a, d, w, shift - MIN_SHIFT, IndexOf(a.partial[shift - MIN_SHIFT], i));
    MarkedPage(a, d, w, i, shift, c);
    var dm := MarkedTable(d, i, shift, c);
    forall e: nat | e < Count(shift) ensures Busy(d', w', i, shift, e) <==> e < Reserved(shift) || e in a'.used[i] {
      assert Busy(dm, w', i, shift, e) <==> e < Reserved(shift) || e in a.used[i] + {c};
    }
    var a1 := a.(used := a.used[i := a.used[i] + {c}]);
    assert Full(a', i) <==> Full(a1, i);
  }

  lemma TakenChunkSlot(a: Pool, d: Table, w: seq<nat>, i: nat, shift: nat, c: nat, size: nat, k: nat)
    requires TakesChunk(a, d, w, i, shift, c) && k < 9
    ensures Linked(TakenChunkTable(a, d, i, shift, c), Slot(k), TagOf(k + MIN_SHIFT),
        TakeChunk(a, i, c, size).partial[k])
  {
    var a', d' := TakeChunk(a, i, c, size), TakenChunkTable(a, d, i, shift, c);
    var s := shift - MIN_SHIFT;
    var j := IndexOf(a.partial[s], i);
    assert SlotOk(a, s) && SlotOk(a, k);
    SlotMember(a, d, w, s, j);
    assert Linked(d, Slot(k), TagOf(k + MIN_SHIFT), a.partial[k]);
    var dm := MarkedTable(d, i, shift, c);
    ListFrame(d, dm, Slot(k), TagOf(k + MIN_SHIFT), a.partial[k]);
    if d' != dm {
      if k == s {
        UnlinkedList(dm, Slot(s), TagOf(shift), a.partial[s], j);
        WithoutOne(a.partial[s], i);
        ListFrame(Unlinked(dm, At(i)), d', Slot(s), TagOf(shift), Without(a.partial[s], j));
      } else {
        OtherSlotKept(a, d, w, i, s, k, dm, d');
      }
    }
  }

  // unlinking or relinking page i in slot s does not reach slot k
  lemma OtherSlotKept(a: Pool, d: Table, w: seq<nat>, i: nat, s: nat, k: nat, dm: Table, d': Table)
    requires Rep(a, d, w) && |a.used| == |a.kinds| && s < 9 && k < 9 && k != s && SlotOk(a, s) && SlotOk(a, k)
    requires i in a.partial[s]
    requires At(i) in d && d[At(i)].prev.to in d && d[At(i)].next in d
    requires Linked(dm, Slot(k), TagOf(k + MIN_SHIFT), a.partial[k])
    requires dm.Keys <= d'.Keys
    requires forall y :: y in dm && y != At(i) && y != d[At(i)].prev.to && y != d[At(i)].next ==> d'[y] == dm[y]
    ensures Linked(d', Slot(k), TagOf(k + MIN_SHIFT), a.partial[k])
  {
    SlotMember(a, d, w, s, IndexOf(a.partial[s], i));
    forall x | x in a.partial[k] ensures At(x) in dm && At(x) in d' && d'[At(x)] == dm[At(x)] {
      assert a.kinds[x] == Chunks(k + MIN_SHIFT);
      assert d[At(i)].prev.to.At? ==> a.kinds[d[At(i)].prev.to.i] == Chunks(s + MIN_SHIFT);
      assert d[At(i)].next.At? ==> a.kinds[d[At(i)].next.i] == Chunks(s + MIN_SHIFT);
      var y :| 0 <= y < |a.partial[k]| && a.partial[k][y] == x;
      assert LinkedAt(dm, Slot(k), TagOf(k + MIN_SHIFT), a.partial[k], y);
    }
    ListFrame(dm, d', Slot(k), TagOf(k + MIN_SHIFT), a.partial[k]);
  }

  // nor does it reach the free list
  lemma FreeListKept(a: Pool, d: Table, w: seq<nat>, i: nat, s: nat, d': Table)
    requires Rep(a, d, w) && |a.used| == |a.kinds| && s < 9 && SlotOk(a, s) && i in a.partial[s] && FreeListOk(a)
    requires At(i) in d && d[At(i)].prev.to in d && d[At(i)].next in d && d.Keys <= d'.Keys
    requires forall y :: y in d && y != At(i) && y != d[At(i)].prev.to && y != d[At(i)].next ==> d'[y] == d[y]
    ensures Linked(d', Free, NGX_SLAB_PAGE, a.freeRuns)
  {
    SlotMember(a, d, w, s, IndexOf(a.partial[s], i));
    forall x | x in a.freeRuns ensures At(x) in d && At(x) in d' && d'[At(x)] == d[At(x)] {
      assert a.kinds[x].FreeRun?;
      assert d[At(i)].prev.to.At? ==> a.kinds[d[At(i)].prev.to.i] == Chunks(s + MIN_SHIFT);
      assert d[At(i)].next.At? ==> a.kinds[d[At(i)].next.i] == Chunks(s + MIN_SHIFT);
      var y :| 0 <= y < |a.freeRuns| && a.freeRuns[y] == x;
      assert LinkedAt(d, Free, NGX_SLAB_PAGE, a.freeRuns, y);
    }
    ListFrame(d, d', Free, NGX_SLAB_PAGE, a.freeRuns);
  }

  lemma TakeChunkRep(a: Pool, d: Table, w: seq<nat>, i: nat, shift: nat, c: nat, size: nat)
    requires TakesChunk(a, d, w, i, shift, c)
    ensures Rep(TakeChunk(a, i, c, size), TakenChunkTable(a, d, i, shift, c), MarkedWords(w, i, shift, c))
  {
    var a', d', w' := TakeChunk(a, i, c, size), TakenChunkTable(a, d, i, shift, c), MarkedWords(w, i, shift, c);
    assert |w'| == |w| && forall j :: 0 <= j < |w'| ==> w'[j] < WORD by { MarkedPage(a, d, w, i, shift, c); }
    forall x | 0 <= x < |a'.kinds| ensures PageOk(a', d', w', x) { TakenChunkPage(a, d, w, i, shift, c, size, x); }
    forall k | 0 <= k < 9 ensures Linked(d', Slot(k), TagOf(k + MIN_SHIFT), a'.partial[k]) {
      TakenChunkSlot(a, d, w, i, shift, c, size, k);
    }
    TakenChunkFreeList(a, d, w, i, shift, c);
    assert d'.Keys == d.Keys;
  }

  lemma TakenChunkFreeList(a: Pool, d: Table, w: seq<nat>, i: nat, shift: nat, c: nat)
    requires TakesChunk(a, d, w, i, shift, c)
    ensures Linked(TakenChunkTable(a, d, i, shift, c), Free, NGX_SLAB_PAGE, a.freeRuns)
  {
    var s := shift - MIN_SHIFT;
    assert SlotOk(a, s);
    SlotMember(a, d, w, s, IndexOf(a.partial[s], i));
    FreeListKept(a, d, w, i, s, TakenChunkTable(a, d, i, shift, c));
  }

  // lines 370-374: a fresh chunk page is the whole of its slot list
  ghost function FreshTable(d: Table, i: nat, shift: nat): Table
    requires ShiftOk(shift) && Slot(shift - MIN_SHIFT) in d
  {
    var head := Slot(shift - MIN_SHIFT);
    var d1 := d[At(i) := Page(FreshSlab(shift), head, Tagged(head, TagOf(shift)))];
    d1[head := d1[head].(next := At(i))]
  }

  lemma NewChunksRep(a: Pool, d: Table, w: seq<nat>, w': seq<nat>, i: nat, shift: nat, size: nat)
    requires Rep(a, d, w) && Inv(a) && i < |a.kinds| && a.kinds[i] == Run(1) && ShiftOk(shift)
    requires a.partial[shift - MIN_SHIFT] == []
    requires FreshWords(w, w', i, shift) && (forall j :: 0 <= j < |w'| ==> w'[j] < WORD)
    ensures Slot(shift - MIN_SHIFT) in d && Rep(NewChunks(a, i, shift, size), FreshTable(d, i, shift), w')
  {
    var s := shift - MIN_SHIFT;
    var a', d' := NewChunks(a, i, shift, size), FreshTable(d, i, shift);
    ChunkFacts(shift);
    assert PageOk(a, d, w, i);
    forall x | 0 <= x < |a'.kinds| ensures PageOk(a', d', w', x) {
      assert PageOk(a, d, w, x);
      if x == i {
        FreshPage(a', d', w, w', i, shift);
      } else {
        assert d'[At(x)] == d[At(x)];
        KeptPage(a, a', d, d', w, w', x);
      }
    }
    forall x | x in a.freeRuns ensures At(x) in d && d'[At(x)] == d[At(x)] { assert a.kinds[x].FreeRun?; }
    ListFrame(d, d', Free, NGX_SLAB_PAGE, a.freeRuns);
    forall k | 0 <= k < 9 ensures Linked(d', Slot(k), TagOf(k + MIN_SHIFT), a'.partial[k]) {
      assert Linked(d, Slot(k), TagOf(k + MIN_SHIFT), a.partial[k]) && SlotOk(a, k);
      if k == s {
        assert LinkedAt(d', Slot(s), TagOf(shift), [i], 0);
      } else {
        forall x | x in a.partial[k] ensures At(x) in d && d'[At(x)] == d[At(x)] { assert a.kinds[x].Chunks?; }
        ListFrame(d, d', Slot(k), TagOf(k + MIN_SHIFT), a.partial[k]);
      }
    }
  }

  lemma FreshPage(a': Pool, d': Table, w: seq<nat>, w': seq<nat>, i: nat, shift: nat)
    requires ShiftOk(shift) && i < |a'.kinds| && i < |a'.used| && a'.kinds[i] == Chunks(shift)
    requires a'.used[i] == {Reserved(shift)}
    requires At(i) in d' && d'[At(i)].slab == FreshSlab(shift) && d'[At(i)].next != Null
    requires d'[At(i)].prev.tag == TagOf(shift)
    requires FreshWords(w, w', i, shift)
    ensures PageOk(a', d', w', i)
  {
    ChunkFacts(shift);
    Powers();
    if shift > EXACT_SHIFT { FreshMap(shift, 0); FreshSlabOk(shift); }
    forall c: nat | c < Count(shift) ensures Busy(d', w', i, shift, c) <==> c < Reserved(shift) || c in a'.used[i] {
      FreshBits(d', w, w', i, shift, c);
    }
    assert Reserved(shift) + 1 !in a'.used[i];
  }

  // lines 476-489: a page that was full goes back to its list
  ghost function RelinkedTable(a: Pool, d: Table, i: nat, shift: nat): Table
    requires ShiftOk(shift) && Slot(shift - MIN_SHIFT) in d && At(i) in d && d[Slot(shift - MIN_SHIFT)].next in d
  {
    if Full(a, i) then Pushed(d, Slot(shift - MIN_SHIFT), TagOf(shift), i) else d
  }

  ghost predicate GivesChunk(a: Pool, d: Table, w: seq<nat>, i: nat, shift: nat, c: nat) {
    && Rep(a, d, w) && Inv(a) && i < |a.kinds| && a.kinds[i] == Chunks(shift) && ShiftOk(shift) && c in a.used[i]
    && At(i) in d && Slot(shift - MIN_SHIFT) in d && d[Slot(shift - MIN_SHIFT)].next in d
    && 512 * i + c / 64 < |w| && 512 * i + 512 <= |w| && Reserved(shift) <= c < Count(shift)
  }

  lemma GivesChunkFacts(a: Pool, d: Table, w: seq<nat>, i: nat, shift: nat, c: nat)
    requires Rep(a, d, w) && Inv(a) && i < |a.kinds| && a.kinds[i] == Chunks(shift) && ShiftOk(shift) && c in a.used[i]
    ensures GivesChunk(a, d, w, i, shift, c)
  {
    ChunkFacts(shift);
    var s := shift - MIN_SHIFT;
    assert UsedOk(a, i) && PageOk(a, d, w, i);
    assert Linked(d, Slot(s), TagOf(shift), a.partial[s]);
    assert a.partial[s] != [] ==> LinkedAt(d, Slot(s), TagOf(shift), a.partial[s], 0);
  }

  lemma ClearedPage(a: Pool, d: Table, w: seq<nat>, i: nat, shift: nat, c: nat, d1: Table)
    requires GivesChunk(a, d, w, i, shift, c) && At(i) in d1 && d1[At(i)].slab == d[At(i)].slab
    ensures var a1 := a.(used := a.used[i := a.used[i] - {c}]);
      ChunksOk(a1, ClearedTable(d1, i, shift, c), ClearedWords(w, i, shift, c), i, shift)
    ensures SlabOk(ClearedTable(d1, i, shift, c)[At(i)].slab, shift)
    ensures forall j :: 0 <= j < |w| ==> ClearedWords(w, i, shift, c)[j] < WORD
  {
    ChunkFacts(shift);
    assert PageOk(a, d, w, i);
    forall e: nat | e < Count(shift)
      ensures Busy(ClearedTable(d1, i, shift, c), ClearedWords(w, i, shift, c), i, shift, e) <==>
          e < Reserved(shift) || e in a.used[i] - {c}
    {
      ClearedBits(d1, w, i, shift, c, e);
      assert Busy(d, w, i, shift, e) <==> e < Reserved(shift) || e in a.used[i];
    }
    if shift >= EXACT_SHIFT {
      SlabWordKept(d[At(i)].slab, shift, c);
    } else {
      ClearBitBound(w[512 * i + c / 64], c % 64);
    }
  }

  lemma GivenChunkPage(a: Pool, d: Table, w: seq<nat>, i: nat, shift: nat, c: nat, x: nat)
    requires GivesChunk(a, d, w, i, shift, c) && x < |a.kinds|
    ensures PageOk(GiveChunk(a, i, c), ClearedTable(RelinkedTable(a, d, i, shift), i, shift, c),
        ClearedWords(w, i, shift, c), x)
  {
    var s := shift - MIN_SHIFT;
    var d1 := RelinkedTable(a, d, i, shift);
    var a', d', w' := GiveChunk(a, i, c), ClearedTable(d1, i, shift, c), ClearedWords(w, i, shift, c);
    ChunkFacts(shift);
    assert PageOk(a, d, w, x) && PageOk(a, d, w, i) && SlotOk(a, s);
    assert a.partial[s] != [] ==>
        LinkedAt(d, Slot(s), TagOf(shift), a.partial[s], 0) && a.partial[s][0] in a.partial[s];
    if x == i {
      ClearedPage(a, d, w, i, shift, c, d1);
      assert c !in a'.used[i];
      forall e: nat | e < Count(shift) ensures Busy(d', w', i, shift, e) <==> e < Reserved(shift) || e in a'.used[i] {
        assert Busy(d', w', i, shift, e) <==> e < Reserved(shift) || e in a.used[i] - {c};
      }
    } else {
      KeptPage(a, a', d, d', w, w', x);
    }
  }

  lemma GivenChunkLists(a: Pool, d: Table, w: seq<nat>, i: nat, shift: nat, c: nat)
    requires GivesChunk(a, d, w, i, shift, c)
    ensures var d' := ClearedTable(RelinkedTable(a, d, i, shift), i, shift, c);
      && Linked(d', Free, NGX_SLAB_PAGE, a.freeRuns)
      && forall k {:trigger a.partial[k]} :: 0 <= k < 9 ==>
          Linked(d', Slot(k), TagOf(k + MIN_SHIFT), GiveChunk(a, i, c).partial[k])
  {
    var s := shift - MIN_SHIFT;
    var d1 := RelinkedTable(a, d, i, shift);
    var a', d' := GiveChunk(a, i, c), ClearedTable(d1, i, shift, c);
    assert SlotOk(a, s);
    assert Linked(d, Slot(s), TagOf(shift), a.partial[s]);
    assert a.partial[s] != [] ==>
        LinkedAt(d, Slot(s), TagOf(shift), a.partial[s], 0) && a.partial[s][0] in a.partial[s];
    forall x | x in a.freeRuns ensures At(x) in d && At(x) in d' && d'[At(x)] == d[At(x)] {
      assert a.kinds[x].FreeRun?;
      var y :| 0 <= y < |a.freeRuns| && a.freeRuns[y] == x;
      assert LinkedAt(d, Free, NGX_SLAB_PAGE, a.freeRuns, y);
    }
    ListFrame(d, d', Free, NGX_SLAB_PAGE, a.freeRuns);
    forall k | 0 <= k < 9 ensures Linked(d', Slot(k), TagOf(k + MIN_SHIFT), a'.partial[k]) {
      GivenChunkSlot(a, d, w, i, shift, c, k);
    }
  }

  lemma GivenChunkSlot(a: Pool, d: Table, w: seq<nat>, i: nat, shift: nat, c: nat, k: nat)
    requires GivesChunk(a, d, w, i, shift, c) && k < 9
    ensures Linked(ClearedTable(RelinkedTable(a, d, i, shift), i, shift, c), Slot(k), TagOf(k + MIN_SHIFT),
        GiveChunk(a, i, c).partial[k])
  {
    var s := shift - MIN_SHIFT;
    var d1 := RelinkedTable(a, d, i, shift);
    var a', d' := GiveChunk(a, i, c), ClearedTable(d1, i, shift, c);
    assert SlotOk(a, s) && SlotOk(a, k);
    assert Linked(d, Slot(k), TagOf(k + MIN_SHIFT), a.partial[k]) && Linked(d, Slot(s), TagOf(shift), a.partial[s]);
    assert a.partial[s] != [] ==>
        LinkedAt(d, Slot(s), TagOf(shift), a.partial[s], 0) && a.partial[s][0] in a.partial[s];
    if k == s {
      if Full(a, i) { PushedList(d, Slot(s), TagOf(shift), a.partial[s], i); }
      ListFrame(d1, d', Slot(s), TagOf(shift), a'.partial[s]);
    } else {
      forall x | x in a.partial[k] ensures At(x) in d && At(x) in d' && d'[At(x)] == d[At(x)] {
        assert a.kinds[x] == Chunks(k + MIN_SHIFT);
        var y :| 0 <= y < |a.partial[k]| && a.partial[k][y] == x;
        assert LinkedAt(d, Slot(k), TagOf(k + MIN_SHIFT), a.partial[k], y);
      }
      ListFrame(d, d', Slot(k), TagOf(k + MIN_SHIFT), a.partial[k]);
    }
  }

  lemma GiveChunkRep(a: Pool, d: Table, w: seq<nat>, i: nat, shift: nat, c: nat)
    requires GivesChunk(a, d, w, i, shift, c)
    ensures Rep(GiveChunk(a, i, c), ClearedTable(RelinkedTable(a, d, i, shift), i, shift, c),
        ClearedWords(w, i, shift, c))
  {
    ClearedPage(a, d, w, i, shift, c, RelinkedTable(a, d, i, shift));
    GivenChunkLists(a, d, w, i, shift, c);
    var a', d', w' := GiveChunk(a, i, c), ClearedTable(RelinkedTable(a, d, i, shift), i, shift, c),
        ClearedWords(w, i, shift, c);
    forall x | 0 <= x < |a'.kinds| ensures PageOk(a', d', w', x) { GivenChunkPage(a, d, w, i, shift, c, x); }
    forall k | 0 <= k < 9 ensures Linked(d', Slot(k), TagOf(k + MIN_SHIFT), a'.partial[k]) {
      assert a.partial[k] == a.partial[k];
    }
  }
}
