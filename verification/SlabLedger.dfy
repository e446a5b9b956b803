// How many pages of a pool are free, allocated whole, and cut into chunks.
module SlabLedger {
  import opened Sequences
  import opened SlabPool

  datatype Ledger = Ledger(free: nat, whole: nat, cut: nat)

  // k pages from i on
  function Range(i: nat, k: nat): (r: set<nat>)
    ensures forall x :: x in r <==> i <= x < i + k
  {
    if k == 0 then {} else Range(i, k - 1) + {i + k - 1}
  }

  ghost function FreeSet(kinds: seq<Kind>): set<nat> {
    set x | 0 <= x < |kinds| && (kinds[x].FreeRun? || kinds[x].FreeTail?)
  }

  ghost function WholeSet(kinds: seq<Kind>): set<nat> {
    set x | 0 <= x < |kinds| && (kinds[x].Run? || kinds[x].RunTail?)
  }

  ghost function CutSet(kinds: seq<Kind>): set<nat> { set x | 0 <= x < |kinds| && kinds[x].Chunks? }

  ghost function Pages(kinds: seq<Kind>): Ledger { Ledger(|FreeSet(kinds)|, |WholeSet(kinds)|, |CutSet(kinds)|) }

  lemma {:induction false} RangeSize(i: nat, k: nat)
    ensures |Range(i, k)| == k
  {
    if k > 0 {
      RangeSize(i, k - 1);
    }
  }

  // a set of k consecutive pages goes from one set to another
  lemma Shift(s: set<nat>, s': set<nat>, i: nat, k: nat)
    requires s' == s - Range(i, k) && Range(i, k) <= s
    ensures |s| == |s'| + k
  {
    RangeSize(i, k);
    assert s == s' + Range(i, k);
  }

  // No page is counted twice, and none is forgotten.
  lemma AllPages(kinds: seq<Kind>)
    ensures var l := Pages(kinds); l.free + l.whole + l.cut == |kinds|
  {
    var f, w, c := FreeSet(kinds), WholeSet(kinds), CutSet(kinds);
    RangeSize(0, |kinds|);
    assert Range(0, |kinds|) == f + w + c;
    assert f !! w && (f + w) !! c;
  }

  // --- the free list accounts for the free pages ------------------------------------------------

  function Lengths(kinds: seq<Kind>, q: seq<nat>): nat {
    if q == [] then 0
    else Lengths(kinds, q[1..]) + if q[0] < |kinds| && kinds[q[0]].FreeRun? then kinds[q[0]].len else 0
  }

  ghost function Covered(kinds: seq<Kind>, q: seq<nat>): set<nat> {
    set x, h {:trigger h in q, Spans(kinds, h, x)} | 0 <= x < |kinds| && h in q && Spans(kinds, h, x) :: x
  }

  predicate Spans(kinds: seq<Kind>, h: nat, x: nat) { h < |kinds| && kinds[h].FreeRun? && h <= x < h + kinds[h].len }

  lemma {:induction false} CoveredSize(kinds: seq<Kind>, q: seq<nat>)
    requires Tiled(kinds) && NoDup(q) && forall h {:trigger h in q} :: h in q ==> h < |kinds| && kinds[h].FreeRun?
    ensures Lengths(kinds, q) == |Covered(kinds, q)|
    decreases |q|
  {
    if q != [] {
      assert q[0] in q && forall x :: x in q[1..] ==> x in q;
      CoveredSize(kinds, q[1..]);
      RangeSize(q[0], kinds[q[0]].len);
      CoveredNext(kinds, q);
    }
  }

  lemma CoveredNext(kinds: seq<Kind>, q: seq<nat>)
    requires Tiled(kinds) && NoDup(q) && q != []
    requires forall h {:trigger h in q} :: h in q ==> h < |kinds| && kinds[h].FreeRun?
    ensures q[0] in q && Covered(kinds, q) == Range(q[0], kinds[q[0]].len) + Covered(kinds, q[1..])
    ensures Range(q[0], kinds[q[0]].len) !! Covered(kinds, q[1..])
  {
    var h, r := q[0], q[1..];
    assert h in q && KindOk(kinds, h) && h !in r && forall g :: g in q <==> g == h || g in r;
    forall x | x in Range(h, kinds[h].len) && x in Covered(kinds, r) ensures false { OneRun(kinds, r, h, x); }
    forall x | true ensures x in Covered(kinds, q) <==> x in Range(h, kinds[h].len) || x in Covered(kinds, r) {
      if x in Range(h, kinds[h].len) { assert Spans(kinds, h, x); }
    }
  }

  // a page is in one free run only
  lemma OneRun(kinds: seq<Kind>, r: seq<nat>, h: nat, x: nat)
    requires Tiled(kinds) && h < |kinds| && kinds[h].FreeRun? && h <= x < h + kinds[h].len && x in Covered(kinds, r)
    ensures h in r
  {
    var g :| g in r && Spans(kinds, g, x);
    assert KindOk(kinds, g) && KindOk(kinds, h);
  }

  // The lengths of the runs on pool->free add up to the number of free pages.
  lemma FreeListAccounts(a: Pool)
    requires Inv(a)
    ensures Lengths(a.kinds, a.freeRuns) == Pages(a.kinds).free
  {
    var kinds := a.kinds;
    assert forall h: nat {:trigger h in a.freeRuns} :: h in a.freeRuns <==> h < |kinds| && kinds[h].FreeRun?;
    CoveredSize(kinds, a.freeRuns);
    forall x | true ensures x in FreeSet(kinds) <==> x in Covered(kinds, a.freeRuns) {
      if x in FreeSet(kinds) {
        assert KindOk(kinds, x);
        var h := if kinds[x].FreeRun? then x else kinds[x].head;
        assert KindOk(kinds, h) && h in a.freeRuns && Spans(kinds, h, x);
      }
      if x in Covered(kinds, a.freeRuns) {
        var h :| h in a.freeRuns && Spans(kinds, h, x);
        assert KindOk(kinds, h) && (x > h ==> kinds[x] == FreeTail(h));
      }
    }
    assert FreeSet(kinds) == Covered(kinds, a.freeRuns);
  }

  // --- how the operations move pages -------------------------------------------------------------

  // k pages go from free to whole
  lemma TakenPages(kinds: seq<Kind>, i: nat, len: nat, k: nat)
    requires Tiled(kinds) && i < |kinds| && kinds[i] == FreeRun(len) && 1 <= k <= len
    ensures Moved(Pages(kinds), Pages(TakenKinds(kinds, i, len, k)), k, 0)
  {
    var kinds' := TakenKinds(kinds, i, len, k);
    assert KindOk(kinds, i);
    Regrouped(kinds, kinds', i, k);
    Shift(FreeSet(kinds), FreeSet(kinds'), i, k);
    Shift(WholeSet(kinds'), WholeSet(kinds), i, k);
  }

  // pages i .. i + k are free in the one and whole in the other, and all others are of the same sort
  lemma Regrouped(kinds: seq<Kind>, kinds': seq<Kind>, i: nat, k: nat)
    requires |kinds'| == |kinds| && i + k <= |kinds|
    requires forall x :: i <= x < i + k ==>
        (kinds[x].FreeRun? || kinds[x].FreeTail?) && (kinds'[x].Run? || kinds'[x].RunTail?)
    requires forall x :: 0 <= x < |kinds| && !(i <= x < i + k) ==> Sort(kinds[x]) == Sort(kinds'[x])
    ensures FreeSet(kinds') == FreeSet(kinds) - Range(i, k) && Range(i, k) <= FreeSet(kinds)
    ensures WholeSet(kinds) == WholeSet(kinds') - Range(i, k) && Range(i, k) <= WholeSet(kinds')
    ensures CutSet(kinds') == CutSet(kinds)
  {}

  function Sort(k: Kind): int { if k.Chunks? then 2 else if k.Run? || k.RunTail? then 1 else 0 }

  // k pages go from free to whole, and m from whole to cut
  predicate Moved(l: Ledger, l': Ledger, k: int, m: int) {
    l'.free == l.free - k && l'.whole == l.whole + k - m && l'.cut == l.cut + m
  }

  // and back
  lemma GivenPages(kinds: seq<Kind>, i: nat, len: nat)
    requires Tiled(kinds) && i < |kinds| && kinds[i] == Run(len)
    ensures Moved(Pages(GivenKinds(kinds, i, len)), Pages(kinds), len, 0)
  {
    var kinds' := GivenKinds(kinds, i, len);
    assert KindOk(kinds, i);
    Regrouped(kinds', kinds, i, len);
    Shift(FreeSet(kinds'), FreeSet(kinds), i, len);
    Shift(WholeSet(kinds), WholeSet(kinds'), i, len);
  }

  // a page that was allocated whole is cut
  lemma CutPages(kinds: seq<Kind>, i: nat, shift: nat)
    requires i < |kinds| && kinds[i] == Run(1)
    ensures Moved(Pages(kinds), Pages(kinds[i := Chunks(shift)]), 0, 1)
  {
    var kinds' := kinds[i := Chunks(shift)];
    assert FreeSet(kinds') == FreeSet(kinds);
    assert WholeSet(kinds') == WholeSet(kinds) - Range(i, 1);
    Shift(WholeSet(kinds), WholeSet(kinds'), i, 1);
    assert CutSet(kinds) == CutSet(kinds') - Range(i, 1);
    Shift(CutSet(kinds'), CutSet(kinds), i, 1);
  }

  // a page that was cut is free
  lemma EmptiedPages(kinds: seq<Kind>, i: nat)
    requires i < |kinds| && kinds[i].Chunks?
    ensures Moved(Pages(kinds[i := FreeRun(1)]), Pages(kinds), 1, 1)
  {
    var kinds' := kinds[i := FreeRun(1)];
    assert WholeSet(kinds') == WholeSet(kinds);
    assert FreeSet(kinds) == FreeSet(kinds') - Range(i, 1);
    Shift(FreeSet(kinds'), FreeSet(kinds), i, 1);
    assert CutSet(kinds') == CutSet(kinds) - Range(i, 1);
    Shift(CutSet(kinds), CutSet(kinds'), i, 1);
  }

  // --- what a free does to the pages ---------------------------------------------------------------

  // the pages after a chunk comes back: the last chunk of a page frees the page
  function FreedKinds(a: Pool, i: nat, c: nat): seq<Kind>
    requires i < |a.kinds| && i < |a.used|
  {
    if a.used[i] == {c} then a.kinds[i := FreeRun(1)] else a.kinds
  }

  // how many pages come back with a block
  ghost predicate Repaid(a: Pool, kinds': seq<Kind>, b: Block) {
    && b.page < |a.kinds| && b.page < |a.used|
    && match a.kinds[b.page]
       case Run(len) => Moved(Pages(kinds'), Pages(a.kinds), len, 0)
       case Chunks(_) => if a.used[b.page] == {b.chunk} then Moved(Pages(kinds'), Pages(a.kinds), 1, 1)
           else Pages(kinds') == Pages(a.kinds)
       case _ => false
  }

  lemma ChunkRepaid(a: Pool, i: nat, c: nat)
    requires i < |a.kinds| && i < |a.used| && a.kinds[i].Chunks?
    ensures Repaid(a, FreedKinds(a, i, c), Block(i, c))
  {
    EmptiedPages(a.kinds, i);
  }

  lemma RunRepaid(a: Pool, i: nat)
    requires Inv(a) && i < |a.kinds| && a.kinds[i].Run?
    ensures Repaid(a, GiveRun(a, i).kinds, Block(i, 0))
  {
    GivenPages(a.kinds, i, a.kinds[i].len);
  }

  // a page that was free is cut into chunks
  lemma FreshPages(a: Pool, j: nat, shift: nat, size: nat)
    requires Inv(a) && j < |a.freeRuns| && a.freeRuns[j] < |a.kinds| && a.kinds[a.freeRuns[j]].FreeRun?
    requires ShiftOk(shift)
    ensures var i, a1 := a.freeRuns[j], TakeRun(a, j, 1, size);
            i < |a1.kinds| && (i < |a1.used| && shift - MIN_SHIFT < |a1.partial| ==>
                Moved(Pages(a.kinds), Pages(NewChunks(a1, i, shift, size).kinds), 1, 1))
  {
    var i := a.freeRuns[j];
    assert KindOk(a.kinds, i);
    TakenPages(a.kinds, i, a.kinds[i].len, 1);
    CutPages(TakeRun(a, j, 1, size).kinds, i, shift);
  }
}
