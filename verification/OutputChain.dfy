// src/core/ngx_output_chain.c, without AIO and directio: the filter and the reads of files
// answer as they like.
module OutputChain {
  import opened Sequences
  import opened OutputBuffers
  import opened OutputMarks

  datatype Rc = Ok | Again | Error | Done | None    // NGX_OK, NGX_AGAIN, NGX_ERROR, NGX_DONE, NGX_NONE

  // the new buffer is as large as it should be
  ghost predicate GotNew(c: Config, s: State, src: Buf, t: State) {
    exists data {:trigger |data|} :: |data| == NewSize(c, src) && t == Got(c, s, data, !Fits(c, src))
  }

  // lines 145-162
  ghost predicate Took(c: Config, s: State, out: seq<Ref>, t: State, got: bool) {
    && Still(c, s, out, t) && s.waiting != [] && s.waiting[0] in s.bufs && s.waiting[0] in t.bufs
    && t.bufs[s.waiting[0]] == s.bufs[s.waiting[0]]
    && got == !Blocked(c, s, out) && (if got then t.buf != NIL else t == s)
    && (got && s.spare != [] ==> t == Taken(s))
    && (got && s.spare == [] ==> GotNew(c, s, s.bufs[s.waiting[0]], t))
  }

  // no buffer is left to copy to
  ghost predicate Blocked(c: Config, t: State, out: seq<Ref>) {
    t.buf == NIL && t.spare == [] && (out != [] || t.made == c.num)
  }

  ghost predicate Turned(c: Config, s: State, out: seq<Ref>, t: State, out': seq<Ref>, end: bool, failed: bool) {
    && Progress(c, s, out, t, out') && (failed ==> end)
    && (if end then out' == out && (!failed ==> Blocked(c, t, out)) else Weight(c, t) < Weight(c, s))
  }

  ghost predicate Collected(c: Config, s: State, t: State, out: seq<Ref>, failed: bool) {
    && Progress(c, s, [], t, out) && (out != [] ==> Weight(c, t) < Weight(c, s))
    && (!failed && t.waiting != [] ==> Blocked(c, t, out))
  }

  // how a call has ended; None if it goes on
  ghost predicate Ended(c: Config, s: State, t: State, rc: Rc, dropped: seq<Item>) {
    && Inv(c, t, []) && Balance(c, t, dropped) == Balance(c, s, [])
    && (c.watch ==> NoWorse(c, Later(c, t), Later(c, s)))
    && (rc != Error ==> dropped == []) && (rc != Error && rc != Done ==> t.lost == s.lost)
    && (rc == Ok ==> t.waiting == []) && (rc == Again && t.waiting != [] ==> Stuck(c, t))
  }

  lemma AbandonEnds(c: Config, s: State, t: State, out: seq<Ref>)
    requires Inv(c, s, []) && Progress(c, s, [], t, out)
    ensures Ended(c, s, t.(lost := t.lost + Owned(t, out)), Error, Stream(c, t.mem, t.bufs, out))
  {
    CollectedBalance(c, s, t, out);
  }

  lemma StopEnds(c: Config, s: State, t: State, last: Rc)
    requires Inv(c, s, []) && Collected(c, s, t, [], false) && Live(s) && (last == Ok || last == Again)
    ensures Ended(c, s, t, if t.waiting != [] then Again else last, [])
  {
    CollectedBalance(c, s, t, []);
  }

  lemma HandedOver(c: Config, s: State, t: State, out: seq<Ref>, k: nat)
    requires Inv(c, s, []) && Progress(c, s, [], t, out)
    ensures Ended(c, s, Failed(c, t, out, k), Done, []) && Ended(c, s, Flushed(c, t, out, k), None, [])
    ensures Live(Flushed(c, t, out, k)) && Weight(c, Flushed(c, t, out, k)) == Weight(c, t)
  {
    FlushedInv(c, t, out, k);
    FailedInv(c, t, out, k);
    HandedBalance(c, s, t, out, Flushed(c, t, out, k));
    HandedBalance(c, s, t, out, Failed(c, t, out, k));
  }

  // the same for what the filter answers
  lemma HandedEnds(c: Config, s: State, t: State, out: seq<Ref>, k: nat, u: State, rc: Rc)
    requires Inv(c, s, []) && Progress(c, s, [], t, out)
    requires u == if rc == Error || rc == Done then Failed(c, t, out, k) else Flushed(c, t, out, k)
    ensures Ended(c, s, u, if rc == Error || rc == Done then rc else None, [])
    ensures rc != Error && rc != Done ==> Live(u) && Weight(c, u) == Weight(c, t)
  {
    HandedOver(c, s, t, out, k);
  }

  // the short path: either all is handed over, or nothing has happened to the input
  ghost predicate ShortCut(c: Config, s: State, t: State, input: seq<Ref>, rc: Rc) {
    && Inv(c, t, []) && t.waiting == [] && t.lost == s.lost && Later(c, t) == Later(c, s)
    && (if rc == None then t.handed == s.handed && Offered(t, input) && Marshalled(c, t, input)
                           && After(c, t.bufs, input, Later(c, t)) == After(c, s.bufs, input, Later(c, s))
                           && Stream(c, t.mem, t.bufs, input) == Stream(c, s.mem, s.bufs, input)
        else && t.handed == s.handed + Stream(c, s.mem, s.bufs, input)
             && After(c, s.bufs, input, Later(c, s)) == Later(c, s))
  }

  ghost predicate SentSome(c: Config, t: State, k: nat, u: State, k': nat) {
    Inv(c, u, []) && Drained(c, t, k) == Drained(c, u, k') && (|u.down| < |t.down| || (|u.down| == |t.down| && k' < k))
  }

  lemma SomeSent(c: Config, t: State, k: nat)
    requires Inv(c, t, []) && t.down != [] && t.down[0] in t.bufs && (k > 0 || Size(t.bufs[t.down[0]]) == 0)
    ensures Size(t.bufs[t.down[0]]) >= 0
    ensures var size := Size(t.bufs[t.down[0]]); var m := if k < size then k else size;
        SentSome(c, t, k, Sent(c, t, m), k - m)
  {
    assert Placed(c, t, [], t.down[0]);
    var size := Size(t.bufs[t.down[0]]);
    var m := if k < size then k else size;
    SentInv(c, t, m);
    DrainedStep(c, t, k, m);
  }

  lemma UnfiledFlags(c: Config, b: Buf)
    ensures Size(Unfiled(c, b)) == Size(b) && AsIs(c, Unfiled(c, b)) == AsIs(c, b) && (Special(b) ==> AsIs(c, b))
  {}

  lemma OneOffered(c: Config, s: State, input: seq<Ref>)
    requires Inv(c, s, []) && s.waiting == [] && Offered(s, input) && Marshalled(c, s, input) && |input| == 1
    ensures input[0] in s.bufs
    ensures var t := Put(s, input[0], Unfiled(c, s.bufs[input[0]]));
      ShortCut(c, s, t, input, None) && Owned(t, input) == {} && (AsIs(c, s.bufs[input[0]]) ==> Inv(c, t, input))
    ensures AsIs(c, s.bufs[input[0]]) ==> After(c, s.bufs, input, Later(c, s)) == Later(c, s)
  {
    var r := input[0];
    assert r in input;
    UnfiledInv(c, s, [], r);
    var t := Put(s, r, Unfiled(c, s.bufs[r]));
    StreamSame(c, s.mem, s.bufs, t.mem, t.bufs, input);
    assert forall q {:trigger q in input} :: q in input ==> q == r;
    TidySame(c, s.bufs, t.bufs, input, Later(c, s));
    if AsIs(c, s.bufs[r]) { DirectInv(c, t, input); }
  }

  lemma DirectDone(c: Config, t: State, input: seq<Ref>, k: nat)
    requires Inv(c, t, input) && t.busy == [] && t.waiting == [] && Owned(t, input) == {}
    ensures var u := Drained(c, Given(c, t, input), k).(busy := []);
      Inv(c, u, []) && u.waiting == [] && u.lost == t.lost && Later(c, u) == Later(c, t) &&
          u.handed == t.handed + Stream(c, t.mem, t.bufs, input)
  {
    FilterInv(c, t, input, k);
    var d := Drained(c, Given(c, t, input), k);
    assert [] + input == input && d.ours == t.ours by { DrainedOurs(c, Given(c, t, input), k); }
    LeftInv(c, d, [], input);
    assert Owned(d, input) == {} && d.lost + {} == d.lost;
  }

  lemma {:induction false} DrainedOurs(c: Config, s: State, k: nat)
    ensures Drained(c, s, k).ours == s.ours
    decreases |s.down|, k
  {
    if s.down != [] && s.down[0] in s.bufs && Size(s.bufs[s.down[0]]) >= 0 && (k > 0 || Size(s.bufs[s.down[0]]) == 0) {
      var size := Size(s.bufs[s.down[0]]);
      var m := if k < size then k else size;
      DrainedOurs(c, Sent(c, s, m), k - m);
    }
  }

  // what came in, whichever way it goes
  lemma BroughtIn(c: Config, s: State, t: State, input: seq<Ref>, rc: Rc)
    requires s.waiting == [] && t.waiting == []
    requires rc != None ==> t.handed == s.handed + Stream(c, s.mem, s.bufs, input)
    ensures rc != None ==>
        Balance(c, t, []) == s.handed + (Stream(c, s.mem, s.bufs, s.waiting) + Stream(c, s.mem, s.bufs, input))
    ensures rc == None ==> Stream(c, t.mem, t.bufs, t.waiting) == Stream(c, s.mem, s.bufs, s.waiting)
  {
    assert Stream(c, s.mem, s.bufs, []) == [] && Stream(c, t.mem, t.bufs, []) == [];
  }

  lemma AddedBalance(c: Config, t: State, input: seq<Ref>)
    requires Inv(c, t, []) && Offered(t, input) && Marshalled(c, t, input)
    ensures Inv(c, Added(t, input), []) && Later(c, Added(t, input)) == After(c, t.bufs, input, Later(c, t))
    ensures Balance(c, Added(t, input), [])
        == t.handed + (Stream(c, t.mem, t.bufs, t.waiting) + Stream(c, t.mem, t.bufs, input))
  {
    AddedInv(c, t, input);
  }

  // a copy is due, and another one is on its way
  ghost predicate NoMore(c: Config, s: State, out: seq<Ref>) {
    && s.waiting != [] && s.waiting[0] in s.bufs && !AsIs(c, s.bufs[s.waiting[0]]) && s.buf == NIL && s.spare == []
    && out != []
  }

  lemma TookCollects(c: Config, t: State, u: State)
    requires OneWaits(c, t) && Took(c, t, [], u, true)
    ensures Copying(c, u) && Collecting(c, t, Moved(c, u), [u.buf])
  {
    var r := t.waiting[0];
    var b, m := Load(c, t), t.bufs[r].marks;
    if t.spare != [] {
      assert t.spare[0] in t.bufs;
      TakenAtHand(c, t, r, b, m);
    } else {
      var data :| |data| == NewSize(c, t.bufs[r]) && u == Got(c, t, data, !Fits(c, t.bufs[r]));
      GotAtHand(c, t, r, b, m, data, !Fits(c, t.bufs[r]));
    }
    MovedOnItsWay(c, t, u, r, b, m, Room(c, t), BlockMarks(t));
  }

  // looking at the flags of the first buffer makes no difference to what becomes of it
  lemma LookedAt(c: Config, s: State, out: seq<Ref>, t: State, u: State, out': seq<Ref>)
    requires s.waiting != [] && s.waiting[0] in s.bufs && t == Put(s, s.waiting[0], Unfiled(c, s.bufs[s.waiting[0]]))
    ensures OneWaits(c, s) ==> OneWaits(c, t) && (Collecting(c, t, u, out') ==> Collecting(c, s, u, out'))
    ensures NoMore(c, s, out) ==> NoMore(c, t, out)
  {
    UnfiledFlags(c, s.bufs[s.waiting[0]]);
    if OneWaits(c, s) {
      var r := s.waiting[0];
      UnfiledLone(c, s, r, Load(c, s), s.bufs[r].marks);
      if Collecting(c, t, u, out') { OthersTwice(c, s, t, u, r); }
    }
  }

  lemma TurnedOn(c: Config, s: State, t: State, out: seq<Ref>, u: State, out': seq<Ref>, end: bool, failed: bool)
    requires Progress(c, s, [], t, out) && (out != [] ==> Weight(c, t) < Weight(c, s))
    requires Turned(c, t, out, u, out', end, failed)
    ensures Progress(c, s, [], u, out') && (out' != [] ==> Weight(c, u) < Weight(c, s))
  {}

  // between two rounds: some of the buffer of s still waits, or all is done
  ghost predicate Driving(c: Config, s: State, t: State, rc: Rc, last: Rc, before: seq<Item>, now: seq<Item>)
    requires OneWaits(c, s)
  {
    || (rc == None && Underway(c, s, t, before, now))
    || ((rc == None ==> last == Ok) && (rc == None || rc == Ok) && now == before + Whole(c, s)
        && Served(c, s, s.waiting[0], Room(c, s), s.bufs[s.waiting[0]].marks, t))
  }

  // a round from u to t
  lemma DrivingNext(c: Config, s: State, u: State, t: State, last: Rc, rc: Rc, last': Rc,
                    before: seq<Item>, now: seq<Item>, now': seq<Item>)
    requires OneWaits(c, s) && Driving(c, s, u, None, last, before, now)
    requires if OneWaits(c, u) then rc == None && last' == Ok && Emptied(c, u, t) && now' == now + FirstPart(c, u)
             else u.waiting == [] && last == Ok ==> rc == Ok && t == u && now' == now
    ensures Driving(c, s, t, rc, last', before, now')
  {
    if OneWaits(c, u) && Underway(c, s, u, before, now) { UnderwayNext(c, s, u, t, before, now); }
  }

  // one readable buffer comes to a quiet chain, and the filter sends all it can be given
  ghost predicate Single(c: Config, s: State, input: seq<Ref>, k: nat) {
    && Quiet(c, s) && s.waiting == [] && |input| == 1 && Offered(s, input) && Marshalled(c, s, input)
    && 0 < c.size && Readable(c, s.mem, s.bufs, input[0])
    && (if AsIs(c, s.bufs[input[0]]) then Size(s.bufs[input[0]]) else BlockSize(c, s, s.bufs[input[0]])) <= k
  }

  lemma SingleComes(c: Config, s: State, input: seq<Ref>, k: nat)
    requires Single(c, s, input, k)
    ensures input[0] in s.bufs
    ensures var r := input[0]; var t := Put(s, r, Unfiled(c, s.bufs[r])); var a := Added(t, input);
            if AsIs(c, s.bufs[r]) then
              var u := Drained(c, Given(c, t, input), k).(busy := []);
              && Rested(c, s, r, u)
              && Stream(Watching(c), t.mem, t.bufs, input) == Shows(c, s.mem, s.bufs, r, End(s), BlockMarks(s))
            else
              && OneWaits(c, a) && a.waiting == [r] && Room(c, a) <= k
              && Whole(c, a) == Shows(c, s.mem, s.bufs, r, End(s), BlockMarks(s))
              && forall u :: Served(c, a, r, Room(c, a), s.bufs[r].marks, u) ==> Rested(c, s, r, u)
  {
    var r := input[0];
    assert r in input && input == [r] && Placed(c, s, [], r);
    if AsIs(c, s.bufs[r]) {
      DirectQuiet(c, s, r, k);
    } else {
      SingleAdded(c, s, r);
    }
  }

  lemma SingleAdded(c: Config, s: State, r: Ref)
    requires Quiet(c, s) && s.waiting == [] && Offered(s, [r]) && Readable(c, s.mem, s.bufs, r) && !AsIs(c, s.bufs[r])
    requires Marshalled(c, s, [r])
    ensures var t := Put(s, r, Unfiled(c, s.bufs[r])); var a := Added(t, [r]);
            && OneWaits(c, a) && a.waiting == [r] && Room(c, a) == BlockSize(c, s, s.bufs[r])
            && Whole(c, a) == Shows(c, s.mem, s.bufs, r, End(s), BlockMarks(s))
            && forall u :: Served(c, a, r, Room(c, a), s.bufs[r].marks, u) ==> Rested(c, s, r, u)
  {
    var s1, a := Added(s, [r]), Added(Put(s, r, Unfiled(c, s.bufs[r])), [r]);
    assert r in [r] && Placed(c, s, [], r);
    AddedInv(c, s, [r]);
    if s.spare != [] { assert s.spare[0] in s.bufs && Placed(c, s, [], s.spare[0]); }
    UnfiledLone(c, s1, r, Bytes(c, s.mem, s.bufs[r]), s.bufs[r].marks);
    assert a == Put(s1, r, Unfiled(c, s1.bufs[r])) && OthersAlone(c, s, s1, r);
    OthersTwice(c, s, s1, a, r);
    forall u | Served(c, a, r, Room(c, a), s.bufs[r].marks, u)
      ensures Rested(c, s, r, u)
    {
      OthersTwice(c, s, a, u, r);
    }
  }

  class Context {
    const c: Config
    const answers: nat -> (Rc, nat)    // per call of the filter: its result and how much is sent
    const readable: nat -> bool           // per read of a file: whether it gets what it asks for
    var bufs: Bufs
    var mem: Blocks
    var top: nat                       // references and blocks below it are in use
    var waiting: seq<Ref>              // ctx->in
    var spare: seq<Ref>                // ctx->free
    var busy: seq<Ref>
    var buf: Ref
    var made: nat                      // ctx->allocated
    var down: seq<Ref>
    var calls: nat
    var readCalls: nat
    ghost var handed: seq<Item>
    ghost var sent: seq<Item>
    ghost var ours: set<Ref>
    ghost var lost: set<Ref>
    ghost var acc: Account
    ghost var shown: seq<Item>         // what the filter was given, with the marks
    ghost var given: seq<Buf>          // the buffers that it was given, as they were then
    ghost var copied: seq<Buf>         // and those that were copied from

    ghost function Now(): State
      reads this
    {
      State(bufs, mem, top, waiting, spare, busy, buf, made, down, handed, sent, ours, lost, acc)
    }

    // The filter gets nothing that it cannot use, and nothing is copied that it could use.
    ghost predicate Fair()
      reads this`given, this`copied
    {
      (forall b {:trigger b in given} :: b in given ==> Suits(c, b))
      && forall b {:trigger b in copied} :: b in copied ==> !Meets(c, b)
    }

    constructor (c: Config, answers: nat -> (Rc, nat), readable: nat -> bool)
      requires 0 < c.size
      ensures this.c == c && this.answers == answers && this.readable == readable && Inv(c, Now(), []) && shown == []
      ensures Fair() && given == [] && copied == []
      ensures Now() == State(map[], map[], 1, [], [], [], NIL, 0, [], [], [], {}, {}, acc)
      ensures acc == Account(false, if c.num == 1 then 0 else c.size)
    {
      this.c, this.answers, this.readable := c, answers, readable;
      bufs, mem, top, waiting, spare, busy, buf, made, down := map[], map[], 1, [], [], [], NIL, 0, [];
      calls, readCalls, handed, shown, sent, ours, lost, given, copied := 0, 0, [], [], [], {}, {}, [], [];
      acc := Account(false, if c.num == 1 then 0 else c.size);
    }

    // every read of a file gets what it asks for
    ghost predicate AllRead() { forall n {:trigger readable(n)} :: readable(n) }

    // the filter sends so much every time, and files can be read
    ghost predicate Steady(k: nat) { AllRead() && forall n {:trigger answers(n)} :: answers(n) == (Ok, k) }

    // ngx_output_chain_as_is
    method TestAsIs(r: Ref, ghost s: State) returns (yes: bool)
      requires s == Now() && r in bufs
      modifies this`bufs
      ensures yes == AsIs(c, s.bufs[r]) && Now() == Put(s, r, Unfiled(c, s.bufs[r]))
    {
      assert bufs == bufs[r := bufs[r]];
      if Special(bufs[r]) {
        return true;
      }
      if !c.sendfile {
        if !InMemory(bufs[r]) {
          return false;
        }
        bufs := bufs[r := bufs[r].(part := bufs[r].part.(inFile := false))];
      }
      assert bufs == s.bufs[r := Unfiled(c, s.bufs[r])];
      if c.needInMemory && !InMemory(bufs[r]) {
        return false;
      }
      if c.needInTemp && (bufs[r].memory || bufs[r].mmap) {
        return false;
      }
      return true;
    }

    // ngx_output_chain_add_copy
    method AddCopy(input: seq<Ref>)
      modifies this`waiting
      ensures waiting == old(waiting) + input
    {
      var i := 0;
      while i < |input|
        invariant 0 <= i <= |input| && waiting == old(waiting) + input[..i]
      {
        waiting := waiting + [input[i]];
        i := i + 1;
      }
    }

    // ngx_output_chain_get_buf
    method GetBuf(ghost s: State) returns (ghost data: seq<Byte>)
      requires s == Now() && waiting != [] && waiting[0] in bufs && Size(bufs[waiting[0]]) > 0 && 0 < c.size
      modifies this`bufs, this`mem, this`top, this`buf, this`made, this`ours, this`acc
      ensures var b := s.bufs[s.waiting[0]]; |data| == if b.marks.lastInChain &&
          (Size(b) < c.size || (c.num == 1 && Size(b) < c.size + c.size / 4)) then Size(b) else c.size
      ensures |data| == NewSize(c, s.bufs[s.waiting[0]]) && Now() == Got(c, s, data, !Fits(c, s.bufs[s.waiting[0]]))
    {
      var size, recycled := ChooseSize(bufs[waiting[0]]);
      var block := seq(size, _ => 0);
      data := block;
      mem := mem[top := block];
      bufs := bufs[top := NewBuf(top, size, c.tag, recycled)];
      ours, acc := ours + {top}, Enlisted(c, acc, size);
      buf, made, top := top, made + 1, top + 1;
    }

    // lines 387-416: the last buffer of a chain may get a block of its own size
    method ChooseSize(b: Buf) returns (size: int, recycled: bool)
      ensures size == NewSize(c, b) && recycled == !Fits(c, b)
    {
      var bsize := Size(b);
      size, recycled := c.size, true;
      if b.marks.lastInChain {
        if bsize < size {
          size, recycled := bsize, false;
        } else if c.num == 1 && bsize < size + size / 4 {
          size, recycled := bsize, false;
        }
      }
    }

    // lines 486-502 and 577-587: the file part of the copy
    method CopyPart(src: Part, dst: Part, size: nat) returns (src': Part, dst': Part)
      ensures src' == if src.inFile then src.(pos := src.pos + size) else src
      ensures dst' == if src.inFile && c.sendfile then Part(true, src.file, src.pos, src.pos + size)
          else dst.(inFile := false)
    {
      src', dst' := src, dst.(inFile := false);
      if src.inFile {
        if c.sendfile {
          dst' := Part(true, src.file, src.pos, src.pos + size);
        }
        src' := src.(pos := src.pos + size);
      }
    }

    // lines 483-508: the copy of a buffer in memory
    method FromMemory(src0: Buf, dst0: Buf, size: nat) returns (src: Buf, dst: Buf)
      requires InMemory(src0) && size <= Size(src0)
      ensures src == Advance(src0, size) && dst == Filled(c, src0, dst0, size)
    {
      var from, part := CopyPart(src0.part, dst0.part, size);
      src := src0.(pos := src0.pos + size, part := from);
      assert src == Advance(src0, size);
      var marks := if src0.pos + size == src0.last then src0.marks else dst0.marks;
      dst := dst0.(last := dst0.last + size, part := part, marks := marks);
    }

    // lines 575-593: the copy of a buffer that is only in a file
    method FromFile(src0: Buf, dst0: Buf, size: nat) returns (src: Buf, dst: Buf)
      requires !InMemory(src0) && src0.part.inFile && size <= Size(src0)
      ensures src == Advance(src0, size) && dst == Filled(c, src0, dst0, size)
    {
      var from, part := CopyPart(src0.part, dst0.part, size);
      src := src0.(part := from);
      assert src == Advance(src0, size);
      var marks := if src.part.pos == src.part.last then src0.marks else dst0.marks;
      dst := dst0.(last := dst0.last + size, part := part, marks := marks);
    }

    // lines 482 and 535-573: the bytes to copy
    method ReadBytes(src: Buf, size: nat) returns (ok: bool, bytes: seq<Byte>)
      requires BufOk(c, mem, src) && size <= Size(src)
      modifies this`readCalls
      ensures ok ==> bytes == Bytes(c, mem, src)[..size]
      ensures !ok ==> !InMemory(src) && !readable(old(readCalls))
    {
      FirstBytes(c, mem, src, size);
      if InMemory(src) {
        return true, mem[src.block][src.pos..src.pos + size];
      }
      ok := readable(readCalls);
      readCalls := readCalls + 1;
      bytes := FileBytes(c, src.part.file, src.part.pos, size);
    }

    // ngx_output_chain_copy_buf
    method CopyBuf(ghost s: State, ghost out: seq<Ref>) returns (ok: bool)
      requires s == Now() && Ready(c, s, out)
      modifies this`bufs, this`mem, this`readCalls
      ensures Placed(c, s, out, s.waiting[0]) && Placed(c, s, out, s.buf)
      ensures Now() == if ok then Copied(c, s) else s
      ensures !ok ==> !InMemory(s.bufs[s.waiting[0]]) && !readable(old(readCalls))
    {
      CopiedHead(c, s, out);
      var src, dst := bufs[waiting[0]], bufs[buf];
      var size := Size(src);
      if dst.end - dst.pos < size {
        size := dst.end - dst.pos;
      }
      var bytes;
      ok, bytes := ReadBytes(src, size);
      if !ok {
        return;
      }
      mem := mem[dst.block := Written(mem[dst.block], dst.pos, bytes)];
      if InMemory(src) {
        src, dst := FromMemory(src, dst, size);
      } else {
        src, dst := FromFile(src, dst, size);
      }
      bufs := bufs[waiting[0] := src][buf := dst];
    }

    // --- the filter's side ------------------------------------------------------------------------

    // m bytes of the first buffer are sent
    method SendFirst(m: nat, ghost s: State)
      requires s == Now().(busy := s.busy) && down != [] && down[0] in bufs
      modifies this`bufs, this`down, this`sent
      ensures Now().(busy := s.busy) == Sent(c, s, m)
    {
      var r := down[0];
      sent := sent + First(At(c, mem, bufs, r), m, m == Size(bufs[r]));
      if m == Size(bufs[r]) {
        down := down[1..];
      }
      bufs := bufs[r := Advance(bufs[r], m)];
    }

    // up to n bytes are sent, in order; s.busy is what ctx->busy is, or will be
    method Send(n: nat, ghost s: State)
      requires s == Now().(busy := s.busy) && Inv(c, s, [])
      modifies this`bufs, this`down, this`sent
      ensures Now().(busy := s.busy) == Drained(c, s, n)
    {
      var k: nat := n;
      ghost var t := s;
      while down != [] && (k > 0 || Size(bufs[down[0]]) == 0)
        invariant t == Now().(busy := s.busy) && Inv(c, t, []) && Drained(c, t, k) == Drained(c, s, n)
        decreases |down|, k
      {
        k := SendTurn(k, t);
        t := Now().(busy := s.busy);
      }
    }

    method SendTurn(k: nat, ghost t: State) returns (k': nat)
      requires t == Now().(busy := t.busy) && Inv(c, t, []) && down != [] && (k > 0 || Size(bufs[down[0]]) == 0)
      modifies this`bufs, this`down, this`sent
      ensures SentSome(c, t, k, Now().(busy := t.busy), k')
    {
      SomeSent(c, t, k);
      var size := Size(bufs[down[0]]);
      var m := if k < size then k else size;
      SendFirst(m, t);
      k' := k - m;
    }

    // ctx->output_filter(ctx->filter_ctx, out)
    method OutputFilter(out: seq<Ref>, ghost s: State) returns (rc: Rc)
      requires s == Now() && Inv(c, s, out)
      requires Fair()
      modifies this`bufs, this`down, this`sent, this`handed, this`calls, this`shown, this`given
      ensures Fair() && given == old(given) + Buffers(c, s, out)
      ensures shown == old(shown) + Stream(Watching(c), s.mem, s.bufs, out)
      ensures rc != None && calls == old(calls) + 1 && (rc == answers(old(calls)).0 || answers(old(calls)).0 == None)
      ensures Now().(busy := s.busy + out) == Drained(c, Given(c, s, out), answers(old(calls)).1)
    {
      GivenInv(c, s, out);
      given := given + Buffers(c, s, out);
      var (answer, n) := answers(calls);
      rc := if answer == None then Ok else answer;
      calls := calls + 1;
      handed, shown := handed + Stream(c, mem, bufs, out), shown + Stream(Watching(c), mem, bufs, out);
      down := down + out;
      Send(n, Given(c, s, out));
    }

    // ngx_chain_update_chains
    method UpdateChains(out: seq<Ref>, ghost s: State)
      requires s == Now().(busy := busy + out) && Inv(c, s, [])
      modifies this`bufs, this`busy, this`spare
      ensures Now() == Updated(c, s)
    {
      if busy == [] {
        busy := out;
      } else {
        busy := busy + out;
      }
      ghost var t := s;
      assert busy == s.busy;
      while busy != []
        invariant t == Now() && Inv(c, t, []) && Updated(c, t) == Updated(c, s)
        decreases |busy|
      {
        assert Placed(c, t, [], busy[0]);
        if Size(bufs[busy[0]]) != 0 {
          break;
        }
        Retire(t);
        t := Now();
      }
    }

    // lines 205-216: the first buffer of ctx->busy is sent
    method Retire(ghost t: State)
      requires t == Now() && Inv(c, t, []) && busy != [] && busy[0] in bufs && Size(bufs[busy[0]]) == 0
      modifies this`bufs, this`busy, this`spare
      ensures Inv(c, Now(), []) && Updated(c, Now()) == Updated(c, t) && |busy| < |t.busy|
    {
      var r := busy[0];
      if bufs[r].tag != c.tag {
        ForgottenInv(c, t);
        busy := busy[1..];
        return;
      }
      RecycledInv(c, t);
      bufs := bufs[r := bufs[r].(pos := bufs[r].start, last := bufs[r].start)];
      busy, spare := busy[1..], [r] + spare;
      assert Now() == Recycled(t);
    }

    // --- ngx_output_chain ---------------------------------------------------------------------------

    // lines 145-162: a free buffer, or a new one
    method TakeBuf(out: seq<Ref>, ghost s: State) returns (got: bool)
      requires s == Now() && Inv(c, s, out) && waiting != [] && buf == NIL && Copies(c, bufs[waiting[0]])
      modifies this`bufs, this`mem, this`top, this`buf, this`made, this`spare, this`ours, this`acc
      ensures Took(c, s, out, Now(), got)
    {
      assert Placed(c, s, out, waiting[0]);
      if spare != [] {
        TakenStill(c, s, out);
        buf, spare := spare[0], spare[1..];
        return true;
      }
      if out != [] || made == c.num {
        return false;
      }
      ghost var data := GetBuf(s);
      GotStill(c, s, out, data, !Fits(c, s.bufs[s.waiting[0]]));
      return true;
    }

    // lines 165-194: bytes of the first buffer are copied, and the copy goes out
    method CopyHead(out: seq<Ref>, ghost s: State) returns (ok: bool, out': seq<Ref>)
      requires s == Now() && Ready(c, s, out)
      requires Fair()
      modifies this`bufs, this`mem, this`waiting, this`buf, this`readCalls, this`acc, this`copied
      ensures Fair() && copied == old(copied) + if ok then [s.bufs[s.waiting[0]]] else []
      ensures Copying(c, s) && Now() == (if ok then Moved(c, s) else s) && out' == if ok then out + [s.buf] else out
      ensures !ok ==> !InMemory(s.bufs[s.waiting[0]]) && !readable(old(readCalls))
    {
      CopiedHead(c, s, out);
      ok := CopyBuf(s, out);
      out' := out;
      if !ok {
        return;
      }
      copied := copied + [s.bufs[waiting[0]]];
      if Size(bufs[waiting[0]]) == 0 {
        acc := Charge(c, acc, s.bufs[waiting[0]]);
        waiting := waiting[1..];
      }
      out' := out + [buf];
      buf := NIL;
    }

    // lines 121-133
    method PassAsIs(ghost s: State) returns (yes: bool)
      requires s == Now() && waiting != [] && waiting[0] in bufs
      modifies this`bufs, this`waiting
      ensures yes == AsIs(c, s.bufs[s.waiting[0]]) && Now() == Passed(c, s)
    {
      yes := TestAsIs(waiting[0], s);
      if yes {
        waiting := waiting[1..];
      }
    }

    // one turn of the loop of lines 90-195, on a buffer with bytes or a special one
    method Turn(out: seq<Ref>, ghost s: State) returns (end: bool, failed: bool, out': seq<Ref>)
      requires s == Now() && Inv(c, s, out) && waiting != []
      requires Size(bufs[waiting[0]]) == 0 ==> Special(bufs[waiting[0]])
      requires Fair()
      modifies this`bufs, this`mem, this`top, this`waiting, this`spare, this`buf, this`made, this`readCalls, this`ours,
          this`acc, this`copied
      ensures Fair()
      ensures Turned(c, s, out, Now(), out', end, failed)
      ensures AllRead() && OneWaits(c, s) && out == [] ==> !end && Collecting(c, s, Now(), out')
      ensures NoMore(c, s, out) ==> end && !failed && Now() == Passed(c, s)
    {
      var r := waiting[0];
      assert Placed(c, s, out, r);
      UnfiledStill(c, s, out);
      UnfiledFlags(c, s.bufs[r]);
      var yes := PassAsIs(s);
      end, failed, out' := false, false, out;
      if yes {
        PassedOk(c, s, out);
        out' := out + [r];
        return;
      }
      ghost var t := Now();
      end, failed, out' := CopyTurn(out, t);
      LookedAt(c, s, out, t, Now(), out');
    }

    // lines 135-194: a buffer that needs a copy
    method CopyTurn(out: seq<Ref>, ghost t: State) returns (end: bool, failed: bool, out': seq<Ref>)
      requires t == Now() && Inv(c, t, out) && waiting != [] && Size(bufs[waiting[0]]) > 0 && !AsIs(c, bufs[waiting[0]])
      requires Fair()
      modifies this`bufs, this`mem, this`top, this`waiting, this`spare, this`buf, this`made, this`readCalls, this`ours,
          this`acc, this`copied
      ensures Fair()
      ensures Turned(c, t, out, Now(), out', end, failed)
      ensures AllRead() && OneWaits(c, t) && out == [] ==> !end && Collecting(c, t, Now(), out')
      ensures NoMore(c, t, out) ==> end && !failed && Now() == t
    {
      end, failed, out' := false, false, out;
      if buf == NIL {
        var got := TakeBuf(out, t);
        if !got {
          end := true;
          return;
        }
      }
      end, failed, out' := CopyOut(out, t, Now());
    }

    // lines 165-194
    method CopyOut(out: seq<Ref>, ghost t: State, ghost u: State) returns (end: bool, failed: bool, out': seq<Ref>)
      requires u == Now() && Ready(c, u, out) && Still(c, t, out, u)
      requires OneWaits(c, t) && out == [] ==> Took(c, t, [], u, true)
      requires Fair()
      modifies this`bufs, this`mem, this`waiting, this`buf, this`readCalls, this`acc, this`copied
      ensures Fair()
      ensures Turned(c, t, out, Now(), out', end, failed)
      ensures AllRead() && OneWaits(c, t) && out == [] ==> !end && Collecting(c, t, Now(), out')
    {
      MovedOk(c, u, out);
      if OneWaits(c, t) && out == [] { TookCollects(c, t, u); }
      var ok;
      ok, out' := CopyHead(out, u);
      end, failed := !ok, !ok;
      assert [] + [u.buf] == [u.buf];
    }

    // one turn of the loop of lines 90-195
    method Pick(out: seq<Ref>, ghost t: State, ghost s: State) returns (end: bool, failed: bool, out': seq<Ref>)
      requires t == Now() && Inv(c, t, out) && waiting != []
      requires Fair()
      modifies this`bufs, this`mem, this`top, this`waiting, this`spare, this`buf, this`made, this`readCalls, this`ours,
          this`acc, this`copied
      ensures Fair()
      ensures Turned(c, t, out, Now(), out', end, failed)
      ensures AllRead() && OneWaits(c, t) && out == [] ==> !end && Collecting(c, t, Now(), out')
      ensures OneWaits(c, s) && Collecting(c, s, t, out) ==> end && !failed && Collecting(c, s, Now(), out)
    {
      assert Placed(c, t, out, waiting[0]);
      ghost var first, going := OneWaits(c, t), OneWaits(c, s) && Collecting(c, s, t, out);
      if first || going { NotSkipped(c, s, t, out); }
      if Size(bufs[waiting[0]]) == 0 && !Special(bufs[waiting[0]]) {
        SkippedOk(c, t, out);
        waiting := waiting[1..];
        end, failed, out' := false, false, out;
      } else {
        if going { PassedCollecting(c, s, t, out); }
        end, failed, out' := Turn(out, t);
      }
    }

    // lines 90-195: the cycle while there are bufs in ctx->in and free bufs to copy to
    method Collect(ghost s: State) returns (failed: bool, out: seq<Ref>)
      requires s == Now() && Inv(c, s, [])
      requires Fair()
      modifies this`bufs, this`mem, this`top, this`waiting, this`spare, this`buf, this`made, this`readCalls, this`ours,
          this`acc, this`copied
      ensures Fair()
      ensures Collected(c, s, Now(), out, failed)
      ensures AllRead() && OneWaits(c, s) ==> !failed && Collecting(c, s, Now(), out)
      ensures s.waiting == [] ==> !failed && Now() == s && out == []
    {
      out, failed := [], false;
      ghost var t := s;
      var end := false;
      while waiting != [] && !end
        invariant t == Now() && Progress(c, s, [], t, out) && (out != [] ==> Weight(c, t) < Weight(c, s))
        invariant Fair() && (failed ==> end)
        invariant end && !failed ==> Blocked(c, t, out)
        invariant AllRead() && OneWaits(c, s) ==> !failed && ((t == s && out == [] && !end) || Collecting(c, s, t, out))
        invariant s.waiting == [] ==> !failed && t == s && out == []
        decreases Weight(c, t), !end
      {
        ghost var u, was := t, out;
        end, failed, out := Pick(out, t, s);
        t := Now();
        TurnedOn(c, s, u, was, t, out, end, failed);
      }
    }

    // lines 206-213: the chain goes to the filter and, unless that fails, behind ctx->busy
    method Flush(out: seq<Ref>, ghost s: State) returns (rc: Rc)
      requires s == Now() && Inv(c, s, out)
      requires Fair()
      modifies this`bufs, this`down, this`sent, this`handed, this`calls, this`shown, this`busy, this`spare, this`lost,
          this`given
      ensures Fair()
      ensures shown == old(shown) + Stream(Watching(c), s.mem, s.bufs, out) && calls == old(calls) + 1
      ensures rc != None && (rc == answers(old(calls)).0 || answers(old(calls)).0 == None)
      ensures Now() == if rc == Error || rc == Done then Failed(c, s, out, answers(old(calls)).1)
            else Flushed(c, s, out, answers(old(calls)).1)
    {
      FilterInv(c, s, out, answers(calls).1);
      ghost var t := Drained(c, Given(c, s, out), answers(calls).1);
      rc := OutputFilter(out, s);
      if rc == Error || rc == Done {
        lost := lost + Owned(t, out);
        return;
      }
      UpdateChains(out, t);
    }

    // lines 56-67: a single buffer that needs no copy goes straight to the filter
    method Short(input: seq<Ref>, ghost s: State) returns (rc: Rc)
      requires s == Now() && Inv(c, s, []) && Offered(s, input) && Marshalled(c, s, input) && waiting == []
      requires busy == []
      requires Fair()
      modifies this`bufs, this`down, this`sent, this`handed, this`calls, this`shown, this`given
      ensures Fair()
      ensures ShortCut(c, s, Now(), input, rc)
      ensures |input| == 1 && input[0] in s.bufs ==> var t := Put(s, input[0], Unfiled(c, s.bufs[input[0]]));
          if AsIs(c, s.bufs[input[0]]) then
            && rc == (if answers(old(calls)).0 == None then rc else answers(old(calls)).0) && rc != None
            && Now() == Drained(c, Given(c, t, input), answers(old(calls)).1).(busy := [])
            && shown == old(shown) + Stream(Watching(c), t.mem, t.bufs, input)
          else rc == None && Now() == t && shown == old(shown)
    {
      if input == [] {
        DirectDone(c, s, input, answers(calls).1);
        rc := OutputFilter(input, s);
        return;
      }
      rc := None;
      if |input| == 1 {
        assert input[0] in input;
        OneOffered(c, s, input);
        var yes := TestAsIs(input[0], s);
        if yes {
          ghost var t := Now();
          DirectDone(c, t, input, answers(calls).1);
          rc := OutputFilter(input, t);
        }
      }
    }

    // lines 206-213, after a round has collected out
    method HandOver(out: seq<Ref>, last: Rc, ghost s: State, ghost t: State, ghost k: nat) returns (rc: Rc, last': Rc)
      requires t == Now() && Inv(c, s, []) && Progress(c, s, [], t, out)
      requires Fair()
      modifies this`bufs, this`down, this`sent, this`handed, this`calls, this`shown, this`busy, this`spare, this`lost,
          this`given
      ensures Fair()
      ensures rc == None || rc == Error || rc == Done
      ensures Ended(c, s, Now(), rc, [])
      ensures rc == None ==> (last' == Ok || last' == Again) && Live(Now()) && Weight(c, Now()) == Weight(c, t)
      ensures Steady(k) && OneWaits(c, s) && Room(c, s) <= k && Collecting(c, s, t, out) ==>
          rc == None && last' == Ok && Emptied(c, s, Now()) && shown == old(shown) + FirstPart(c, s)
    {
      ghost var steady := Steady(k) && OneWaits(c, s) && Room(c, s) <= k && Collecting(c, s, t, out);
      ghost var n := answers(calls);
      if steady { FlushedEmptied(c, s, t, out, k); }
      rc := Flush(out, t);
      HandedEnds(c, s, t, out, n.1, Now(), rc);
      last' := last;
      if rc != Error && rc != Done {
        rc, last' := None, rc;
      }
    }

    // lines 197-204 and the returns of the cycle: a round that hands nothing over
    method Stop(out: seq<Ref>, failed: bool, last: Rc, ghost s: State, ghost t: State)
      returns (rc: Rc, ghost dropped: seq<Item>)
      requires t == Now() && Inv(c, s, []) && Collected(c, s, t, out, failed)
      requires failed || (out == [] && Live(s) && (last == Ok || last == Again))
      modifies this`lost
      ensures rc != None && Ended(c, s, Now(), rc, dropped)
      ensures !failed ==> Now() == t && rc == if waiting != [] then Again else last
    {
      if failed {
        AbandonEnds(c, s, t, out);
        dropped := Stream(c, mem, bufs, out);
        lost := lost + Owned(t, out);
        rc := Error;
      } else {
        StopEnds(c, s, t, last);
        rc, dropped := if waiting != [] then Again else last, [];
      }
    }

    // lines 197-213
    method Conclude(out: seq<Ref>, failed: bool, last: Rc, ghost s: State, ghost t: State, ghost k: nat)
      returns (rc: Rc, last': Rc, ghost dropped: seq<Item>)
      requires t == Now() && Inv(c, s, []) && Collected(c, s, t, out, failed) && Fair()
      requires (last == None || last == Ok || last == Again) && (last != None ==> Live(s))
      requires AllRead() && OneWaits(c, s) ==> !failed && Collecting(c, s, t, out)
      requires s.waiting == [] ==> !failed && t == s && out == []
      modifies this
      ensures Fair() && Ended(c, s, Now(), rc, dropped)
      ensures rc == None ==> (last' == Ok || last' == Again) && Live(Now()) && Weight(c, Now()) <= Weight(c, s)
      ensures rc == None ==> last == None || Weight(c, Now()) < Weight(c, s)
      ensures Steady(k) && OneWaits(c, s) && Room(c, s) <= k ==>
          rc == None && last' == Ok && Emptied(c, s, Now()) && shown == old(shown) + FirstPart(c, s)
      ensures s.waiting == [] && last == Ok ==> rc == Ok && Now() == s && shown == old(shown)
    {
      assert AllRead() && OneWaits(c, s) ==> out != [];
      if failed || (out == [] && last != None) {
        rc, dropped := Stop(out, failed, last, s, t);
        last' := last;
      } else {
        dropped := [];
        rc, last' := HandOver(out, last, s, t, k);
      }
    }

    // one round of the loop of lines 82-214; None to go on
    method Round(last: Rc, ghost s: State, ghost k: nat) returns (rc: Rc, last': Rc, ghost dropped: seq<Item>)
      requires s == Now() && Inv(c, s, []) && (last == None || last == Ok || last == Again)
      requires last != None ==> Live(s)
      requires Fair()
      modifies this
      ensures Fair()
      ensures Ended(c, s, Now(), rc, dropped)
      ensures rc == None ==> (last' == Ok || last' == Again) && Live(Now()) && Weight(c, Now()) <= Weight(c, s)
      ensures rc == None ==> last == None || Weight(c, Now()) < Weight(c, s)
      ensures Steady(k) && OneWaits(c, s) && Room(c, s) <= k ==>
          rc == None && last' == Ok && Emptied(c, s, Now()) && shown == old(shown) + FirstPart(c, s)
      ensures s.waiting == [] && last == Ok ==> rc == Ok && Now() == s && shown == old(shown)
    {
      var failed, out := Collect(s);
      rc, last', dropped := Conclude(out, failed, last, s, Now(), k);
    }

    // lines 78-214: rounds of collecting a chain and handing it to the filter
    method Drive(ghost s: State, ghost k: nat) returns (rc: Rc, ghost dropped: seq<Item>)
      requires s == Now() && Inv(c, s, [])
      requires Fair()
      modifies this
      ensures Fair()
      ensures rc != None && Ended(c, s, Now(), rc, dropped)
      ensures Steady(k) && OneWaits(c, s) && Room(c, s) <= k ==>
          rc == Ok && shown == old(shown) + Whole(c, s) &&
              Served(c, s, s.waiting[0], Room(c, s), s.bufs[s.waiting[0]].marks, Now())
    {
      var last := None;
      ghost var t, steady := s, Steady(k) && OneWaits(c, s) && Room(c, s) <= k;
      rc, dropped := None, [];
      while rc == None
        invariant t == Now() && Ended(c, s, t, rc, dropped) && Fair()
        invariant rc == None ==> (last == None || last == Ok || last == Again) && (last != None ==> Live(t))
        invariant steady ==> Driving(c, s, t, rc, last, old(shown), shown)
        decreases rc == None, Weight(c, t), last == None
      {
        ghost var u, now, was := t, shown, last;
        rc, last, dropped := Round(last, t, k);
        t := Now();
        if steady { DrivingNext(c, s, u, t, was, rc, last, old(shown), now, shown); }
      }
    }

    // What is handed to the filter and what is left in ctx->in is what came in, in order; only a
    // read that fails drops some. What the filter was handed it sends unchanged, whenever it
    // does: no buffer is refilled before it is sent (in Inv: handed == sent + Stream(down)).
    // With c.watch this holds of the marks too, for callers that bring in buffers that fit whole
    // into each of the chain's own if one of these may have marks.
    method OutputChain(input: seq<Ref>, ghost s: State, ghost k: nat) returns (rc: Rc, ghost dropped: seq<Item>)
      requires s == Now() && Inv(c, s, []) && Offered(s, input) && Marshalled(c, s, input)
      requires Fair()
      modifies this
      ensures Fair()
      ensures Inv(c, Now(), []) && made <= c.num
      ensures c.watch ==> NoWorse(c, Later(c, Now()), After(c, s.bufs, input, Later(c, s)))
      ensures Balance(c, Now(), dropped)
          == s.handed + (Stream(c, s.mem, s.bufs, s.waiting) + Stream(c, s.mem, s.bufs, input))
      ensures rc != Error ==> dropped == []
      ensures rc != Error && rc != Done ==> lost == s.lost
      ensures rc == Ok ==> waiting == []
      ensures rc != None && (rc == Again && waiting != [] ==> Stuck(c, Now()))
      ensures Steady(k) && Single(c, s, input, k) ==>
          && rc == Ok && shown == old(shown) + Shows(c, s.mem, s.bufs, input[0], End(s), BlockMarks(s))
          && Rested(c, s, input[0], Now())
    {
      dropped := [];
      if waiting == [] && busy == [] {
        if Single(c, s, input, k) { SingleComes(c, s, input, k); }
        rc := Short(input, s);
        BroughtIn(c, s, Now(), input, rc);
        if rc != None {
          return;
        }
      }
      ghost var t := Now();
      AddedBalance(c, t, input);
      AddCopy(input);
      rc, dropped := Drive(Added(t, input), k);
    }

    // the caller fills a buffer of its own, in a new block
    method Supply(b: Buf, data: seq<Byte>, ghost s: State) returns (r: Ref)
      requires s == Now() && Inv(c, s, []) && b.tag != c.tag && top > 0 && BufOk(c, mem[top := data], b.(block := top))
      modifies this`bufs, this`mem, this`top
      ensures Now() == Supplied(s, b, data) && r == s.top && r !in s.bufs && Inv(c, Now(), []) && Offered(Now(), [r])
    {
      SuppliedInv(c, s, b, data);
      r := top;
      bufs, mem, top := bufs[top := b.(block := top)], mem[top := data], top + 1;
    }
  }

  // Calls with one buffer each, in a chain with one buffer of its own and a filter that sends
  // all it gets: what it is given is what came in, marks and all, exactly if no buffer that is
  // larger than the chain's own comes next, among those that need a copy, after one with marks.
  method Calls(ctx: Context, input: seq<Ref>, ghost s: State, ghost k: nat)
    requires s == ctx.Now() && Supplies(ctx.c, s, input, s.mem, s.bufs) && !ctx.c.watch && ctx.Steady(k)
    requires Reaches(ctx.c, s, input, k) && ctx.Fair()
    modifies ctx
    ensures ctx.Fair()
    ensures Quiet(ctx.c, ctx.Now()) && ctx.waiting == []
    ensures ctx.shown == old(ctx.shown) + Says(ctx.c, s.mem, s.bufs, input, End(s), BlockMarks(s))
    ensures ctx.shown == old(ctx.shown) + Stream(Watching(ctx.c), s.mem, s.bufs, input) <==>
        Tidy(ctx.c, s.bufs, input, Account(BlockMarks(s) != Unmarked(), End(s)))
  {
    ghost var c, said := ctx.c, Says(ctx.c, s.mem, s.bufs, input, End(s), BlockMarks(s));
    ghost var t := s;
    var i := 0;
    assert input[0..] == input;
    while i < |input|
      invariant 0 <= i <= |input| && t == ctx.Now() && Supplies(c, t, input[i..], s.mem, s.bufs)
      invariant Reaches(c, t, input[i..], k) && ctx.Fair()
      invariant ctx.shown + Says(c, s.mem, s.bufs, input[i..], End(t), BlockMarks(t)) == old(ctx.shown) + said
    {
      t := NextCall(ctx, input[i..], t, s.mem, s.bufs, k);
      i := i + 1;
    }
    NoneEarly(c, s);
    SaysIff(c, s.mem, s.bufs, input, End(s), BlockMarks(s));
  }

  // the filter can send any of them, and the chain's own buffer, whole
  ghost predicate Reaches(c: Config, s: State, q: seq<Ref>, k: nat) {
    && 0 < c.size && c.size + c.size / 4 <= k && End(s) <= k
    && forall r {:trigger r in q} :: r in q ==> r in s.bufs && (AsIs(c, s.bufs[r]) ==> Size(s.bufs[r]) <= k)
  }

  lemma NoneEarly(c: Config, s: State)
    requires Quiet(c, s)
    ensures End(s) == 0 ==> BlockMarks(s) == Unmarked()
  {
    if s.spare != [] { assert s.spare[0] in s.bufs && Placed(c, s, [], s.spare[0]); }
  }

  method NextCall(ctx: Context, q: seq<Ref>, ghost t: State, ghost mem: Blocks, ghost bufs: Bufs, ghost k: nat)
      returns (ghost u: State)
    requires t == ctx.Now() && q != [] && Supplies(ctx.c, t, q, mem, bufs) && Reaches(ctx.c, t, q, k) && !ctx.c.watch
    requires ctx.Steady(k) && ctx.Fair()
    modifies ctx
    ensures ctx.Fair()
    ensures u == ctx.Now() && Supplies(ctx.c, u, q[1..], mem, bufs) && Reaches(ctx.c, u, q[1..], k)
    ensures ctx.shown + Says(ctx.c, mem, bufs, q[1..], End(u), BlockMarks(u))
         == old(ctx.shown) + Says(ctx.c, mem, bufs, q, End(t), BlockMarks(t))
  {
    ghost var c := ctx.c;
    assert q[0] in q;
    var rc;
    ghost var dropped;
    rc, dropped := ctx.OutputChain([q[0]], t, k);
    u := ctx.Now();
    RestedSupplies(c, t, q, mem, bufs, u);
    SaidNext(c, t, q, mem, bufs, u, k);
    Assoc(old(ctx.shown), Shows(c, t.mem, t.bufs, q[0], End(t), BlockMarks(t)),
        Says(c, mem, bufs, q[1..], End(u), BlockMarks(u)));
  }

  lemma SaidNext(c: Config, t: State, q: seq<Ref>, mem: Blocks, bufs: Bufs, u: State, k: nat)
    requires Supplies(c, t, q, mem, bufs) && q != [] && Readable(c, t.mem, t.bufs, q[0])
    requires Rested(c, t, q[0], u) && Supplies(c, u, q[1..], mem, bufs)
    requires Reaches(c, t, q, k)
    ensures Reaches(c, u, q[1..], k)
    ensures Says(c, mem, bufs, q, End(t), BlockMarks(t))
         == Shows(c, t.mem, t.bufs, q[0], End(t), BlockMarks(t)) + Says(c, mem, bufs, q[1..], End(u), BlockMarks(u))
  {
    assert q[0] in q && forall r :: r in q[1..] ==> r in q;
    if t.spare != [] { assert t.spare[0] in t.bufs && Placed(c, t, [], t.spare[0]); }
    forall r | r in q[1..] ensures r in u.bufs && u.bufs[r] == t.bufs[r] { assert r in q; }
    SameShows(c, t.mem, t.bufs, mem, bufs, q[0], End(t), BlockMarks(t));
  }

  lemma SameShows(c: Config, mem: Blocks, bufs: Bufs, mem': Blocks, bufs': Bufs, r: Ref, e: nat, m0: Marks)
    requires 0 < c.size && Readable(c, mem, bufs, r) && Readable(c, mem', bufs', r) && bufs[r] == bufs'[r]
    requires Bytes(c, mem, bufs[r]) == Bytes(c, mem', bufs[r])
    ensures Shows(c, mem, bufs, r, e, m0) == Shows(c, mem', bufs', r, e, m0)
  {}

  // One byte with a flush, and then three without marks, through a buffer of two bytes: the
  // first two of the three go out with a flush.
  method StaleMarks() returns (ctx: Context)
    ensures fresh(ctx) && var m := Mark(Marks(true, false, false));
            ctx.shown == [Data(0), m] + [Data(0), Data(0), m] + [Data(0)]
  {
    var c := Config((_, _) => 0, 1, 2, 0, false, false, false, false);
    ctx := new Context(c, _ => (Ok, 100), _ => true);
    var small := Buf(0, 0, 0, 0, 0, false, false, false, Part(true, 0, 0, 1), false, false,
                     Marks(true, false, false), 1);
    var large := small.(part := Part(true, 0, 0, 3), marks := Unmarked());
    var a := ctx.Supply(small, [], ctx.Now());
    var b := ctx.Supply(large, [], ctx.Now());
    ghost var s := ctx.Now();
    SaidStale(c, s, a, b);
    Calls(ctx, [a, b], s, 100);
  }

  lemma SaidStale(c: Config, s: State, a: Ref, b: Ref)
    requires c.size == 2 && c.num == 1 && !c.sendfile && (forall f, i :: c.content(f, i) == 0) && a in s.bufs &&
        b in s.bufs
    requires s.bufs[a] == Buf(a, 0, 0, 0, 0, false, false, false, Part(true, 0, 0, 1), false, false,
                              Marks(true, false, false), 1)
    requires s.bufs[b] == Buf(b, 0, 0, 0, 0, false, false, false, Part(true, 0, 0, 3), false, false, Unmarked(), 1)
    ensures AllReadable(c, s.mem, s.bufs, [a, b])
    ensures var m := Mark(Marks(true, false, false));
            Says(c, s.mem, s.bufs, [a, b], 0, Unmarked()) == [Data(0), m] + [Data(0), Data(0), m] + [Data(0)]
  {
    var m := Marks(true, false, false);
    var x, y := Bytes(c, s.mem, s.bufs[a]), Bytes(c, s.mem, s.bufs[b]);
    assert x == [0] && y == [0, 0, 0] && y[..2] == [0, 0] && y[2..] == [0];
    assert [a, b][1..] == [b] && [b][1..] == [];
    assert Emit(x, 2, Unmarked(), m) == [Data(0), Mark(m)];
    assert Emit(y, 2, m, Unmarked()) == [Data(0), Data(0), Mark(m)] + [Data(0)];
    assert Says(c, s.mem, s.bufs, [], 2, Unmarked()) == [];
    assert Says(c, s.mem, s.bufs, [b], 2, m) == Shows(c, s.mem, s.bufs, b, 2, m) + [];
    assert Says(c, s.mem, s.bufs, [a, b], 0, Unmarked())
        == Shows(c, s.mem, s.bufs, a, 0, Unmarked()) + Says(c, s.mem, s.bufs, [b], 2, m);
    Assoc([Data(0), Mark(m)], [Data(0), Data(0), Mark(m)], [Data(0)]);
  }
}
