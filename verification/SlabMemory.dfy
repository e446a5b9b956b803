// What the users of a slab pool see of src/core/ngx_slab.c: where their blocks are
// and what is stored in them.
module SlabMemory {
  import opened Bits
  import opened SlabPool
  import opened SlabTable
  import opened SlabChunks
  import opened SlabSteps

  // word j of the page area belongs to block b
  ghost predicate Inside(a: Pool, b: Block, j: nat) {
    Offset(a, b) <= 8 * j && 8 * j + 8 <= Offset(a, b) + Extent(a, b)
  }

  ghost predicate SameBytes(a: Pool, a': Pool, w: seq<nat>, w': seq<nat>, b: Block) {
    && Offset(a', b) == Offset(a, b) && Extent(a', b) == Extent(a, b) && |w'| == |w|
    && forall j: nat {:trigger Inside(a, b, j)} :: j < |w| && Inside(a, b, j) ==> w'[j] == w[j]
  }

  // blocks live before and after a step neither move nor change
  ghost predicate Undisturbed(a: Pool, a': Pool, w: seq<nat>, w': seq<nat>) {
    forall b {:trigger SameBytes(a, a', w, w', b)} :: b in a.sizes && b in a'.sizes ==> SameBytes(a, a', w, w', b)
  }

  lemma TakeRunBytes(a: Pool, j: nat, k: nat, size: nat, w: seq<nat>)
    requires Inv(a) && j < |a.freeRuns| && a.freeRuns[j] < |a.kinds| && a.kinds[a.freeRuns[j]].FreeRun?
    requires 1 <= k <= a.kinds[a.freeRuns[j]].len
    ensures Undisturbed(a, TakeRun(a, j, k, size), w, w)
  {
    var a' := TakeRun(a, j, k, size);
    var i := a.freeRuns[j];
    assert KindOk(a.kinds, i);
    forall b | b in a.sizes ensures SameBytes(a, a', w, w, b) {
      assert Live(a, b) && KindOk(a.kinds, b.page);
      assert a'.kinds[b.page] == a.kinds[b.page];
    }
  }

  lemma GiveRunBytes(a: Pool, i: nat, w: seq<nat>)
    requires Inv(a) && i < |a.kinds| && a.kinds[i].Run?
    ensures Undisturbed(a, GiveRun(a, i), w, w)
  {
    var a' := GiveRun(a, i);
    assert KindOk(a.kinds, i);
    forall b | b in a.sizes && b in a'.sizes ensures SameBytes(a, a', w, w, b) {
      assert Live(a, b) && KindOk(a.kinds, b.page);
      assert a'.kinds[b.page] == a.kinds[b.page];
    }
  }

  // a bitmap word belongs to no block
  lemma BitmapWord(a: Pool, i: nat, shift: nat, c: nat, b: Block)
    requires Inv(a) && i < |a.kinds| && a.kinds[i] == Chunks(shift) && ShiftOk(shift) && shift < EXACT_SHIFT
    requires c < Count(shift) && Live(a, b)
    ensures !Inside(a, b, 512 * i + c / 64)
  {
    ChunkFacts(shift);
    ClearOfBitmaps(a, b, i);
  }

  lemma TakeChunkBytes(a: Pool, d: Table, w: seq<nat>, i: nat, shift: nat, c: nat, size: nat)
    requires TakesChunk(a, d, w, i, shift, c)
    ensures Undisturbed(a, TakeChunk(a, i, c, size), w, MarkedWords(w, i, shift, c))
  {
    var a', w' := TakeChunk(a, i, c, size), MarkedWords(w, i, shift, c);
    forall b | b in a.sizes ensures SameBytes(a, a', w, w', b) {
      assert Live(a, b);
      if shift < EXACT_SHIFT { BitmapWord(a, i, shift, c, b); }
    }
  }

  lemma NewChunksBytes(a: Pool, w: seq<nat>, w': seq<nat>, i: nat, shift: nat, size: nat)
    requires Inv(a) && i < |a.kinds| && a.kinds[i] == Run(1) && ShiftOk(shift) && a.partial[shift - MIN_SHIFT] == []
    requires FreshWords(w, w', i, shift)
    ensures forall b {:trigger SameBytes(a, NewChunks(a, i, shift, size), w, w', b)} ::
              b in a.sizes && b != Block(i, 0) ==> SameBytes(a, NewChunks(a, i, shift, size), w, w', b)
  {
    var a' := NewChunks(a, i, shift, size);
    forall b | b in a.sizes && b != Block(i, 0) ensures SameBytes(a, a', w, w', b) {
      assert Live(a, b) && Live(a, Block(i, 0)) && KindOk(a.kinds, b.page) && b.page != i;
      Disjoint(a, b, Block(i, 0));
      forall j: nat | j < |w| && Inside(a, b, j) ensures w'[j] == w[j] {
        assert !(512 * i <= j < 512 * i + 512);
      }
    }
  }

  // freeing a chunk, and with the last one its page
  lemma GiveChunkBytes(a: Pool, d: Table, w: seq<nat>, i: nat, shift: nat, c: nat, a': Pool)
    requires GivesChunk(a, d, w, i, shift, c) && a'.sizes == a.sizes - {Block(i, c)}
    requires |a'.kinds| == |a.kinds| && (forall x :: 0 <= x < |a.kinds| && x != i ==> a'.kinds[x] == a.kinds[x])
    requires a'.kinds[i] == a.kinds[i] || a.used[i] == {c}
    ensures Undisturbed(a, a', w, ClearedWords(w, i, shift, c))
  {
    var w' := ClearedWords(w, i, shift, c);
    forall b | b in a.sizes && b in a'.sizes ensures SameBytes(a, a', w, w', b) {
      assert Live(a, b) && b != Block(i, c);
      if shift < EXACT_SHIFT { BitmapWord(a, i, shift, c, b); }
    }
  }

  // A user's write into a live block leaves the representation alone.
  lemma StoreRep(a: Pool, d: Table, w: seq<nat>, b: Block, j: nat, v: nat)
    requires Rep(a, d, w) && Inv(a) && b in a.sizes && j < |w| && Inside(a, b, j) && v < WORD
    ensures Rep(a, d, w[j := v])
    ensures forall x {:trigger SameBytes(a, a, w, w[j := v], x)} :: x in a.sizes && x != b ==>
        SameBytes(a, a, w, w[j := v], x)
  {
    var w' := w[j := v];
    assert Live(a, b);
    forall i | 0 <= i < |a.kinds| ensures PageOk(a, d, w', i) {
      assert PageOk(a, d, w, i);
      if a.kinds[i].Chunks? {
        var shift := a.kinds[i].shift;
        ChunkFacts(shift);
        forall c: nat | c < Count(shift) ensures Busy(d, w', i, shift, c) <==> c < Reserved(shift) || c in a.used[i] {
          assert Busy(d, w, i, shift, c) <==> c < Reserved(shift) || c in a.used[i];
          if shift < EXACT_SHIFT { BitmapWord(a, i, shift, c, b); }
        }
      }
    }
    forall x | x in a.sizes && x != b ensures SameBytes(a, a, w, w', x) {
      assert Live(a, x);
      Disjoint(a, b, x);
    }
  }
}
