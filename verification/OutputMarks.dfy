// Marks in a chain with one buffer of its own and a filter that sends all it is given: what
// goes out for each buffer that comes in. The bytes are those of OutputBuffers.
module OutputMarks {
  import opened Sequences
  import opened OutputBuffers

  // the same chain, with the marks in its streams
  function Watching(c: Config): Config { c.(watch := true) }

  function Ends(m: Marks): seq<Item> { if m == Unmarked() then [] else [Mark(m)] }

  // Bytes that go out through a buffer of e bytes that has marks m0: only the last part gets
  // the marks m of the source (line 504), the others go out with m0.
  function Emit(b: seq<Byte>, e: nat, m0: Marks, m: Marks): seq<Item>
    requires e > 0
    decreases |b|
  {
    if |b| <= e then Datas(b) + Ends(m) else (Datas(b[..e]) + Ends(m0)) + Emit(b[e..], e, m0, m)
  }

  // Marks go stale exactly if there are some, and the bytes do not fit.
  lemma {:induction false} EmitIff(b: seq<Byte>, e: nat, m0: Marks, m: Marks)
    requires e > 0
    ensures |Emit(b, e, m0, m)| >= |b| + |Ends(m)|
    ensures |Emit(b, e, m0, m)| == |b| + |Ends(m)| <==> m0 == Unmarked() || |b| <= e
    ensures m0 == Unmarked() || |b| <= e ==> Emit(b, e, m0, m) == Datas(b) + Ends(m)
    decreases |b|
  {
    if |b| > e {
      EmitIff(b[e..], e, m0, m);
      assert Datas(b) == Datas(b[..e]) + Datas(b[e..]);
      if m0 == Unmarked() { Assoc(Datas(b[..e]), Datas(b[e..]), Ends(m)); }
    }
  }

  // --- a chain at rest ---------------------------------------------------------------------------

  // the chain may have one buffer of its own, and it has none yet or has it free
  ghost predicate Quiet(c: Config, s: State) {
    && Inv(c, s, []) && c.num == 1 && s.top > 0 && s.buf == NIL && s.busy == [] && s.down == []
    && (if s.made == 0 then s.spare == [] else |s.spare| == 1)
  }

  // the size and the marks of the buffer that the next copy goes to
  function BlockSize(c: Config, s: State, b: Buf): int {
    if s.spare == [] || s.spare[0] !in s.bufs then NewSize(c, b) else s.bufs[s.spare[0]].end
  }

  function BlockMarks(s: State): Marks {
    if s.spare == [] || s.spare[0] !in s.bufs then Unmarked() else s.bufs[s.spare[0]].marks
  }

  // one buffer waits that needs a copy, and has bytes b and marks m
  ghost predicate Lone(c: Config, s: State, r: Ref, b: seq<Byte>, m: Marks) {
    && Quiet(c, s) && s.waiting == [r] && r in s.bufs && Copies(c, s.bufs[r]) && BufOk(c, s.mem, s.bufs[r])
    && Bytes(c, s.mem, s.bufs[r]) == b && s.bufs[r].marks == m
  }

  // buffers of the callers stay as they are, but for r
  ghost predicate OthersAlone(c: Config, s: State, t: State, r: Ref) {
    forall q {:trigger t.bufs[q]} {:trigger s.bufs[q]} :: q in s.bufs && q !in s.ours && q != r ==>
      && q in t.bufs && q !in t.ours && t.bufs[q] == s.bufs[q]
      && At(Watching(c), t.mem, t.bufs, q) == At(Watching(c), s.mem, s.bufs, q)
  }

  // The first e bytes of b are in the chain's own buffer o, on the way to the filter; the rest waits.
  ghost predicate OnItsWay(c: Config, s: State, r: Ref, b: seq<Byte>, m: Marks, e: nat, m0: Marks, t: State,
      out: seq<Ref>) {
    && Inv(c, t, out) && c.num == 1 && t.top > 0 && t.buf == NIL && t.busy == [] && t.down == [] && t.spare == []
    && t.made == 1
    && |out| == 1 && out[0] in t.bufs && out[0] in t.ours && t.bufs[out[0]].end == e && e > 0
    && BufOk(c, t.mem, t.bufs[out[0]]) && InMemory(t.bufs[out[0]])
    && (if |b| <= e then t.waiting == [] && t.bufs[out[0]].marks == m && Bytes(c, t.mem, t.bufs[out[0]]) == b
        else && t.waiting == [r] && t.bufs[out[0]].marks == m0 && Bytes(c, t.mem, t.bufs[out[0]]) == b[..e]
             && r in t.bufs && Copies(c, t.bufs[r]) && BufOk(c, t.mem, t.bufs[r])
             && Bytes(c, t.mem, t.bufs[r]) == b[e..] && t.bufs[r].marks == m)
    && OthersAlone(c, s, t, r)
  }

  // and then it is sent, and free again
  ghost predicate WentOut(c: Config, s: State, r: Ref, b: seq<Byte>, m: Marks, e: nat, m0: Marks, u: State) {
    && Quiet(c, u) && |u.spare| == 1 && u.spare[0] in u.bufs && u.bufs[u.spare[0]].end == e && e > 0
    && (if |b| <= e then u.waiting == [] && BlockMarks(u) == m else Lone(c, u, r, b[e..], m) && BlockMarks(u) == m0)
    && OthersAlone(c, s, u, r)
  }

  lemma OthersTwice(c: Config, s: State, t: State, u: State, r: Ref)
    requires OthersAlone(c, s, t, r) && OthersAlone(c, t, u, r)
    ensures OthersAlone(c, s, u, r)
  {
    forall q | q in s.bufs && q !in s.ours && q != r
      ensures q in u.bufs && q !in u.ours && u.bufs[q] == s.bufs[q]
      ensures At(Watching(c), u.mem, u.bufs, q) == At(Watching(c), s.mem, s.bufs, q)
    {
      assert q in t.bufs && t.bufs[q] == s.bufs[q];
    }
  }

  // its flags are looked at, and without sendfile it is no longer in a file
  lemma UnfiledLone(c: Config, s: State, r: Ref, b: seq<Byte>, m: Marks)
    requires Lone(c, s, r, b, m)
    ensures var t := Put(s, r, Unfiled(c, s.bufs[r])); Lone(c, t, r, b, m) && OthersAlone(c, s, t, r)
    ensures var t := Put(s, r, Unfiled(c, s.bufs[r]));
            BlockMarks(t) == BlockMarks(s) && BlockSize(c, t, t.bufs[r]) == BlockSize(c, s, s.bufs[r])
  {
    assert Placed(c, s, [], r);
    UnfiledInv(c, s, [], r);
    if s.spare != [] { assert s.spare[0] in s.bufs && Placed(c, s, [], s.spare[0]); }
  }

  // the chain's own buffer is at hand
  ghost predicate AtHand(c: Config, s: State, t: State, r: Ref, b: seq<Byte>, m: Marks, e: nat, m0: Marks) {
    && Ready(c, t, []) && t.waiting == [r] && r in t.bufs && c.num == 1 && t.top > 0 && t.spare == [] && t.busy == []
    && t.down == []
    && t.made == 1 && BufOk(c, t.mem, t.bufs[r]) && Bytes(c, t.mem, t.bufs[r]) == b && t.bufs[r].marks == m
    && t.buf in t.bufs && t.bufs[t.buf].end == e && t.bufs[t.buf].marks == m0 && OthersAlone(c, s, t, r)
  }

  lemma TakenAtHand(c: Config, s: State, r: Ref, b: seq<Byte>, m: Marks)
    requires Lone(c, s, r, b, m) && s.spare != [] && s.spare[0] in s.bufs
    ensures BlockSize(c, s, s.bufs[r]) >= 0
    ensures AtHand(c, s, Taken(s), r, b, m, BlockSize(c, s, s.bufs[r]), BlockMarks(s))
  {
    TakenInv(c, s, []);
    assert Placed(c, s, [], s.spare[0]);
  }

  lemma GotAtHand(c: Config, s: State, r: Ref, b: seq<Byte>, m: Marks, data: seq<Byte>, recycled: bool)
    requires Lone(c, s, r, b, m) && s.spare == [] && |data| == NewSize(c, s.bufs[r]) > 0
    ensures AtHand(c, s, Got(c, s, data, recycled), r, b, m, BlockSize(c, s, s.bufs[r]), BlockMarks(s))
  {
    var t := Got(c, s, data, recycled);
    GotInv(c, s, t, [], data, recycled);
    forall q | q in s.bufs && q !in s.ours && q != r
      ensures q != s.top && At(Watching(c), t.mem, t.bufs, q) == At(Watching(c), s.mem, s.bufs, q)
    {
      assert Placed(c, s, [], q);
    }
    assert Placed(c, s, [], r);
  }

  // the copy
  lemma MovedOnItsWay(c: Config, s: State, t: State, r: Ref, b: seq<Byte>, m: Marks, e: nat, m0: Marks)
    requires AtHand(c, s, t, r, b, m, e, m0)
    ensures Copying(c, t) && OnItsWay(c, s, r, b, m, e, m0, Moved(c, t), [t.buf])
  {
    CopiedHead(c, t, []);
    MovedOk(c, t, []);
    var u := Moved(c, t);
    assert Placed(c, t, [], t.buf) && Placed(c, t, [], r) && t.buf in t.ours && r !in t.ours;
    assert [] + [t.buf] == [t.buf];
    MovedOthers(c, t, r);
    OthersTwice(c, s, t, u, r);
  }

  lemma MovedOthers(c: Config, t: State, r: Ref)
    requires Ready(c, t, []) && t.waiting == [r]
    ensures Copying(c, t) && OthersAlone(c, t, Moved(c, t), r)
  {
    CopiedHead(c, t, []);
    var u := Moved(c, t);
    assert t.buf in t.ours by { assert Placed(c, t, [], t.buf); }
    forall q | q in t.bufs && q !in t.ours && q != r
      ensures q in u.bufs && u.bufs[q] == t.bufs[q]
      ensures At(Watching(c), u.mem, u.bufs, q) == At(Watching(c), t.mem, t.bufs, q)
    {
      assert Apart(t, t.buf, q) && Placed(c, t, [], q);
    }
  }

  // the filter sends it, and it is recycled
  lemma FlushedWentOut(c: Config, s: State, r: Ref, b: seq<Byte>, m: Marks, e: nat, m0: Marks, t: State, out: seq<Ref>,
      k: nat)
    requires OnItsWay(c, s, r, b, m, e, m0, t, out) && k >= e && |b| > 0
    ensures WentOut(c, s, r, b, m, e, m0, Flushed(c, t, out, k))
  {
    var o := out[0];
    assert out == [o] && Placed(c, t, out, o);
    FlushedInv(c, t, out, k);
    FlushedOne(c, t, o, k);
    var u := Flushed(c, t, out, k);
    if |b| > e { assert Placed(c, t, out, r) && r != o; }
    forall q | q in t.bufs && q != o ensures At(Watching(c), u.mem, u.bufs, q) == At(Watching(c), t.mem, t.bufs, q) {}
    OthersTwice(c, s, t, u, r);
  }

  lemma FlushedOne(c: Config, t: State, o: Ref, k: nat)
    requires Inv(c, t, [o]) && t.busy == [] && t.down == [] && t.spare == [] && o in t.bufs && t.bufs[o].tag == c.tag
    requires 0 < Size(t.bufs[o]) <= k && InMemory(t.bufs[o])
    ensures var u := Flushed(c, t, [o], k);
            && u == t.(bufs := u.bufs, spare := [o], handed := u.handed, sent := u.sent) && u.bufs.Keys == t.bufs.Keys
            && (forall q {:trigger u.bufs[q]} :: q in t.bufs && q != o ==> u.bufs[q] == t.bufs[q])
            && u.bufs[o].marks == t.bufs[o].marks && u.bufs[o].end == t.bufs[o].end
  {
    var g, n := Given(c, t, [o]), Size(t.bufs[o]);
    assert g.down == [o] && g.busy == [o];
    var h := Sent(c, g, n);
    assert h.down == [] && h.busy == [o] && Drained(c, g, k) == Drained(c, h, k - n) == h;
    assert Updated(c, h) == Updated(c, Recycled(h)) == Recycled(h);
  }

  // what the filter is shown of it
  lemma ShownOf(c: Config, mem: Blocks, bufs: Bufs, o: Ref)
    requires o in bufs && BufOk(c, mem, bufs[o]) && Size(bufs[o]) > 0
    ensures Stream(Watching(c), mem, bufs, [o]) == Datas(Bytes(c, mem, bufs[o])) + Ends(bufs[o].marks)
  {
    assert [o][1..] == [];
  }

  // --- the same, by the state alone ----------------------------------------------------------------

  ghost predicate OneWaits(c: Config, s: State) {
    && |s.waiting| == 1 && s.waiting[0] in s.bufs && BufOk(c, s.mem, s.bufs[s.waiting[0]])
    && Lone(c, s, s.waiting[0], Bytes(c, s.mem, s.bufs[s.waiting[0]]), s.bufs[s.waiting[0]].marks)
  }

  // its bytes
  ghost function Load(c: Config, s: State): seq<Byte>
    requires OneWaits(c, s)
  {
    Bytes(c, s.mem, s.bufs[s.waiting[0]])
  }

  ghost function Room(c: Config, s: State): (e: int)
    requires OneWaits(c, s)
    ensures e > 0
  {
    var b := s.bufs[s.waiting[0]];
    assert s.spare != [] ==> s.spare[0] in s.bufs && Placed(c, s, [], s.spare[0]);
    BlockSize(c, s, b)
  }

  // what is shown of the first round
  ghost function FirstPart(c: Config, s: State): seq<Item>
    requires OneWaits(c, s)
  {
    var b := Load(c, s);
    if |b| <= Room(c, s) then Datas(b) + Ends(s.bufs[s.waiting[0]].marks)
    else Datas(b[..Room(c, s)]) + Ends(BlockMarks(s))
  }

  // and in all
  ghost function Whole(c: Config, s: State): seq<Item>
    requires OneWaits(c, s)
  {
    Emit(Load(c, s), Room(c, s), BlockMarks(s), s.bufs[s.waiting[0]].marks)
  }

  ghost predicate Collecting(c: Config, s: State, t: State, out: seq<Ref>)
    requires OneWaits(c, s)
  {
    OnItsWay(c, s, s.waiting[0], Load(c, s), s.bufs[s.waiting[0]].marks, Room(c, s), BlockMarks(s), t, out)
  }

  // what is collected, or about to be, is not skipped for want of bytes
  lemma NotSkipped(c: Config, s: State, t: State, out: seq<Ref>)
    requires t.waiting != [] && t.waiting[0] in t.bufs
    requires OneWaits(c, t) || (OneWaits(c, s) && Collecting(c, s, t, out))
    ensures Size(t.bufs[t.waiting[0]]) != 0
  {}

  // what is left of it still waits, and has been looked at
  lemma PassedCollecting(c: Config, s: State, t: State, out: seq<Ref>)
    requires OneWaits(c, s) && Collecting(c, s, t, out) && t.waiting != []
    ensures t.waiting[0] in t.bufs && !AsIs(c, t.bufs[t.waiting[0]]) && Collecting(c, s, Passed(c, t), out)
  {
    var r := t.waiting[0];
    UnfiledStill(c, t, out);
    assert Placed(c, t, out, r) && r != out[0];
    var u := Passed(c, t);
    UnfiledInv(c, t, out, r);
    assert OthersAlone(c, t, u, r);
    OthersTwice(c, s, t, u, r);
  }

  ghost predicate Emptied(c: Config, s: State, u: State)
    requires OneWaits(c, s)
  {
    WentOut(c, s, s.waiting[0], Load(c, s), s.bufs[s.waiting[0]].marks, Room(c, s), BlockMarks(s), u)
  }

  lemma FlushedEmptied(c: Config, s: State, t: State, out: seq<Ref>, k: nat)
    requires OneWaits(c, s) && Collecting(c, s, t, out) && k >= Room(c, s)
    ensures Emptied(c, s, Flushed(c, t, out, k))
    ensures Stream(Watching(c), t.mem, t.bufs, out) == FirstPart(c, s)
  {
    FlushedWentOut(c, s, s.waiting[0], Load(c, s), s.bufs[s.waiting[0]].marks, Room(c, s), BlockMarks(s), t, out, k);
    assert out == [out[0]];
    ShownOf(c, t.mem, t.bufs, out[0]);
  }

  // the call is over: r was shown, and the chain's own buffer has its marks
  ghost predicate Served(c: Config, s: State, r: Ref, e: int, m: Marks, u: State) {
    && Quiet(c, u) && u.waiting == [] && |u.spare| == 1 && u.spare[0] in u.bufs && u.bufs[u.spare[0]].end == e
    && BlockMarks(u) == m && OthersAlone(c, s, u, r)
  }

  // part of the buffer of s is shown, and the rest waits in t
  ghost predicate Underway(c: Config, s: State, t: State, before: seq<Item>, now: seq<Item>)
    requires OneWaits(c, s)
  {
    && OneWaits(c, t) && t.waiting == s.waiting && t.bufs[t.waiting[0]].marks == s.bufs[s.waiting[0]].marks
    && Room(c, t) == Room(c, s) && BlockMarks(t) == BlockMarks(s) && OthersAlone(c, s, t, s.waiting[0])
    && now + Whole(c, t) == before + Whole(c, s)
  }

  lemma UnderwayNext(c: Config, s: State, t: State, u: State, before: seq<Item>, now: seq<Item>)
    requires OneWaits(c, s) && Underway(c, s, t, before, now) && Emptied(c, t, u)
    ensures |Load(c, t)| > Room(c, t) ==> Underway(c, s, u, before, now + FirstPart(c, t))
    ensures |Load(c, t)| <= Room(c, t) ==>
        Served(c, s, s.waiting[0], Room(c, s), s.bufs[s.waiting[0]].marks, u) &&
            now + FirstPart(c, t) == before + Whole(c, s)
  {
    OthersTwice(c, s, t, u, s.waiting[0]);
    if |Load(c, t)| > Room(c, t) {
      assert OneWaits(c, u) && Load(c, u) == Load(c, t)[Room(c, t)..];
      Assoc(now, FirstPart(c, t), Whole(c, u));
    }
  }

  // the filter sends the whole of a buffer that it is given
  lemma DirectSent(c: Config, t: State, r: Ref, k: nat)
    requires Inv(c, t, [r]) && Quiet(c, t) && r in t.bufs && r !in t.ours && Size(t.bufs[r]) <= k
    ensures Size(t.bufs[r]) >= 0 && Drained(c, Given(c, t, [r]), k) == Sent(c, Given(c, t, [r]), Size(t.bufs[r]))
    ensures Inv(c, Drained(c, Given(c, t, [r]), k).(busy := []), [])
  {
    var g, n := Given(c, t, [r]), Size(t.bufs[r]);
    assert g.down == [r] && g.busy == [r] && Placed(c, g, [], r) by { GivenInv(c, t, [r]); }
    var h := Sent(c, g, n);
    assert [r][1..] == [];
    assert h.down == [] && Drained(c, g, k) == Drained(c, h, k - n) == h;
    FilterInv(c, t, [r], k);
    LeftInv(c, h, [], [r]);
    assert [] + [r] == [r] && Owned(h, [r]) == {} && h.lost + {} == h.lost;
  }

  // a buffer that needs no copy goes to the filter at once
  lemma DirectQuiet(c: Config, s: State, r: Ref, k: nat)
    requires Quiet(c, s) && s.waiting == [] && Offered(s, [r]) && r in s.bufs && AsIs(c, s.bufs[r])
    requires Size(s.bufs[r]) <= k
    ensures var t := Put(s, r, Unfiled(c, s.bufs[r]));
            var u := Drained(c, Given(c, t, [r]), k).(busy := []);
            && Quiet(c, u) && u.waiting == [] && u.spare == s.spare && u.made == s.made && OthersAlone(c, s, u, r)
            && (forall q {:trigger q in u.spare} ::
                q in u.spare ==> q in s.bufs && q in u.bufs && u.bufs[q] == s.bufs[q])
            && Stream(Watching(c), t.mem, t.bufs, [r]) == At(Watching(c), s.mem, s.bufs, r)
  {
    assert r in [r] && Placed(c, s, [], r);
    UnfiledInv(c, s, [], r);
    var t := Put(s, r, Unfiled(c, s.bufs[r]));
    DirectInv(c, t, [r]);
    DirectSent(c, t, r, k);
    if s.spare != [] { assert Placed(c, s, [], s.spare[0]) && s.spare == [s.spare[0]]; }
    assert [r][1..] == [];
  }

  // --- one call after the other --------------------------------------------------------------------

  // the size of the chain's own buffer, 0 if there is none
  function End(s: State): nat { if s.spare == [] || s.spare[0] !in s.bufs then 0 else s.bufs[s.spare[0]].end }

  ghost predicate Readable(c: Config, mem: Blocks, bufs: Bufs, r: Ref) {
    r in bufs && BufOk(c, mem, bufs[r]) && (AsIs(c, bufs[r]) || Size(bufs[r]) > 0)
  }

  ghost predicate AllReadable(c: Config, mem: Blocks, bufs: Bufs, q: seq<Ref>) {
    forall r {:trigger r in q} :: r in q ==> Readable(c, mem, bufs, r)
  }

  // what is shown of buffer r, if the chain's own has size e and marks m0
  ghost function Shows(c: Config, mem: Blocks, bufs: Bufs, r: Ref, e: nat, m0: Marks): seq<Item>
    requires Readable(c, mem, bufs, r) && 0 < c.size
  {
    if AsIs(c, bufs[r]) then At(Watching(c), mem, bufs, r)
    else Emit(Bytes(c, mem, bufs[r]), if e == 0 then NewSize(c, bufs[r]) else e, m0, bufs[r].marks)
  }

  // what is shown of one buffer after the other
  ghost function Says(c: Config, mem: Blocks, bufs: Bufs, q: seq<Ref>, e: nat, m0: Marks): seq<Item>
    requires 0 < c.size && AllReadable(c, mem, bufs, q)
  {
    if q == [] then []
    else
      assert q[0] in q && forall r :: r in q[1..] ==> r in q;
      var b := bufs[q[0]];
      var rest := if AsIs(c, b) then Says(c, mem, bufs, q[1..], e, m0)
                  else Says(c, mem, bufs, q[1..], if e == 0 then NewSize(c, b) else e, b.marks);
      Shows(c, mem, bufs, q[0], e, m0) + rest
  }

  // It is what they stand for exactly if they are tidy: no buffer that is larger than the
  // chain's own comes next, among those that need a copy, after one with marks.
  lemma {:induction false} SaysIff(c: Config, mem: Blocks, bufs: Bufs, q: seq<Ref>, e: nat, m0: Marks)
    requires c.num == 1 && 0 < c.size && (e == 0 ==> m0 == Unmarked()) && AllReadable(c, mem, bufs, q)
    ensures var a := Account(m0 != Unmarked(), e);
            && |Says(c, mem, bufs, q, e, m0)| >= |Stream(Watching(c), mem, bufs, q)|
            && (|Says(c, mem, bufs, q, e, m0)| == |Stream(Watching(c), mem, bufs, q)| <==> Tidy(c, bufs, q, a))
            && (Tidy(c, bufs, q, a) ==> Says(c, mem, bufs, q, e, m0) == Stream(Watching(c), mem, bufs, q))
    decreases |q|
  {
    if q != [] {
      assert q[0] in q && forall r :: r in q[1..] ==> r in q;
      var b := bufs[q[0]];
      if AsIs(c, b) {
        SaysIff(c, mem, bufs, q[1..], e, m0);
      } else {
        var e' := if e == 0 then NewSize(c, b) else e;
        SaysIff(c, mem, bufs, q[1..], e', b.marks);
        EmitIff(Bytes(c, mem, b), e', m0, b.marks);
        assert At(Watching(c), mem, bufs, q[0]) == Datas(Bytes(c, mem, b)) + Ends(b.marks);
      }
    }
  }

  // the buffers of q, and what they stand for, are the same
  ghost predicate SameLoads(c: Config, mem: Blocks, bufs: Bufs, mem': Blocks, bufs': Bufs, q: seq<Ref>) {
    && AllReadable(c, mem, bufs, q) && AllReadable(c, mem', bufs', q)
    && forall r {:trigger r in q} :: r in q ==> bufs'[r] == bufs[r] && Bytes(c, mem', bufs[r]) == Bytes(c, mem, bufs[r])
  }

  lemma {:induction false} SaysSame(c: Config, mem: Blocks, bufs: Bufs, mem': Blocks, bufs': Bufs, q: seq<Ref>, e: nat,
      m0: Marks)
    requires 0 < c.size && SameLoads(c, mem, bufs, mem', bufs', q)
    ensures Says(c, mem', bufs', q, e, m0) == Says(c, mem, bufs, q, e, m0)
    decreases |q|
  {
    if q != [] {
      assert q[0] in q && forall r :: r in q[1..] ==> r in q;
      var b := bufs[q[0]];
      if AsIs(c, b) {
        SaysSame(c, mem, bufs, mem', bufs', q[1..], e, m0);
      } else {
        SaysSame(c, mem, bufs, mem', bufs', q[1..], if e == 0 then NewSize(c, b) else e, b.marks);
      }
    }
  }

  // one call is over: r was shown
  ghost predicate Rested(c: Config, s: State, r: Ref, u: State)
    requires r in s.bufs
  {
    && Quiet(c, u) && u.waiting == [] && OthersAlone(c, s, u, r)
    && if AsIs(c, s.bufs[r]) then End(u) == End(s) && BlockMarks(u) == BlockMarks(s)
       else End(u) == BlockSize(c, s, s.bufs[r]) && BlockMarks(u) == s.bufs[r].marks
  }

  // a quiet chain and buffers for it, with what they stand for
  ghost predicate Supplies(c: Config, s: State, q: seq<Ref>, mem: Blocks, bufs: Bufs) {
    && Quiet(c, s) && s.waiting == [] && NoDup(q) && SameLoads(c, mem, bufs, s.mem, s.bufs, q)
    && forall r {:trigger r in q} :: r in q ==> r !in s.ours
  }

  lemma RestedSupplies(c: Config, s: State, q: seq<Ref>, mem: Blocks, bufs: Bufs, u: State)
    requires Supplies(c, s, q, mem, bufs) && q != [] && q[0] in s.bufs && Rested(c, s, q[0], u)
    ensures Supplies(c, u, q[1..], mem, bufs)
  {
    Tail(q);
    forall r | r in q[1..] ensures r !in u.ours && Readable(c, u.mem, u.bufs, r) && u.bufs[r] == bufs[r]
    {
      assert r in q && u.bufs[r] == s.bufs[r] && Placed(c, u, [], r);
    }
    forall r | r in q[1..] ensures Bytes(c, u.mem, bufs[r]) == Bytes(c, mem, bufs[r]) {
      assert r in q && u.bufs[r] == s.bufs[r];
      SameBytes(c, s.mem, s.bufs, u.mem, u.bufs, r);
    }
  }

  lemma SameBytes(c: Config, mem: Blocks, bufs: Bufs, mem': Blocks, bufs': Bufs, r: Ref)
    requires r in bufs && r in bufs' && bufs[r] == bufs'[r] && BufOk(c, mem, bufs[r]) && BufOk(c, mem', bufs[r])
    requires At(Watching(c), mem, bufs, r) == At(Watching(c), mem', bufs', r)
    ensures Bytes(c, mem, bufs[r]) == Bytes(c, mem', bufs[r])
  {
    var x, y, e := Bytes(c, mem, bufs[r]), Bytes(c, mem', bufs[r]), Ending(Watching(c), bufs[r]);
    assert |x| == |y|;
    forall i | 0 <= i < |x| ensures x[i] == y[i] {
      assert (Datas(x) + e)[i] == Data(x[i]) && (Datas(y) + e)[i] == Data(y[i]);
    }
  }
}
