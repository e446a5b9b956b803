// src/core/ngx_buf.h: buffers, the bytes that they stand for, and who holds which of them.
module OutputBuffers {
  import opened Sequences

  type Ref = nat
  const NIL: Ref := 0
  newtype Byte = x: int | 0 <= x < 256

  // ngx_buf_t; pos, last, start and end are offsets in a block of memory
  datatype Buf = Buf(block: nat, start: nat, pos: nat, last: nat, end: nat,
                     temporary: bool, memory: bool, mmap: bool,
                     part: Part, recycled: bool, sync: bool, marks: Marks, tag: nat)
  datatype Part = Part(inFile: bool, file: nat, pos: nat, last: nat)      // in_file, file, file_pos, file_last
  datatype Marks = Marks(flush: bool, lastBuf: bool, lastInChain: bool)

  // what is fixed in ngx_output_chain_ctx_t, and the bytes of the files; watch says whether the
  // streams of the model have the marks of the buffers in them, and not only the bytes
  datatype Config = Config(content: (nat, nat) -> Byte, num: nat, size: nat, tag: nat,
                           sendfile: bool, needInMemory: bool, needInTemp: bool, watch: bool)

  datatype Item = Data(byte: Byte) | Mark(marks: Marks)

  // whether one of the chain's own buffers may have marks, and a size that all of them have
  datatype Account = Account(marked: bool, least: nat)

  type Bufs = map<Ref, Buf>
  type Blocks = map<nat, seq<Byte>>

  // ngx_output_chain_ctx_t, the memory, and the filter's side: the buffers that it was given
  // and has not sent out yet, what it was given and what it sent. ours are the buffers that the
  // chain allocated; lost are those that went with a failed call; acc sums up what was copied.
  datatype State = State(bufs: Bufs, mem: Blocks, top: nat,
                         waiting: seq<Ref>, spare: seq<Ref>, busy: seq<Ref>, buf: Ref, made: nat,
                         down: seq<Ref>, handed: seq<Item>, sent: seq<Item>,
                         ours: set<Ref>, lost: set<Ref>, acc: Account)

  predicate InMemory(b: Buf) { b.temporary || b.memory || b.mmap }

  predicate Special(b: Buf) { (b.marks.flush || b.marks.lastBuf || b.sync) && !InMemory(b) && !b.part.inFile }

  function Size(b: Buf): int { if InMemory(b) then b.last - b.pos else b.part.last - b.part.pos }

  function FileBytes(c: Config, file: nat, from: nat, n: nat): seq<Byte> {
    seq(n, i requires 0 <= i < n => c.content(file, from + i))
  }

  // the ranges exist, and a buffer that is both in memory and in a file has the same bytes in both
  ghost predicate BufOk(c: Config, mem: Blocks, b: Buf) {
    && (InMemory(b) ==> b.block in mem && b.pos <= b.last <= |mem[b.block]|)
    && (if b.part.inFile then b.part.pos <= b.part.last else !InMemory(b) ==> b.part.pos == b.part.last)
    && (InMemory(b) && b.part.inFile ==>
        mem[b.block][b.pos..b.last] == FileBytes(c, b.part.file, b.part.pos, b.part.last - b.part.pos))
  }

  ghost function Bytes(c: Config, mem: Blocks, b: Buf): (r: seq<Byte>)
    requires BufOk(c, mem, b)
    ensures |r| == Size(b)
  {
    if InMemory(b) then mem[b.block][b.pos..b.last] else FileBytes(c, b.part.file, b.part.pos, b.part.last - b.part.pos)
  }

  // the first bytes of a buffer, where they are
  lemma FirstBytes(c: Config, mem: Blocks, b: Buf, n: nat)
    requires BufOk(c, mem, b) && n <= Size(b)
    ensures InMemory(b) ==> mem[b.block][b.pos..b.pos + n] == Bytes(c, mem, b)[..n]
    ensures !InMemory(b) ==> FileBytes(c, b.part.file, b.part.pos, n) == Bytes(c, mem, b)[..n]
  {
    if InMemory(b) {
      assert mem[b.block][b.pos..b.last][..n] == mem[b.block][b.pos..b.pos + n];
    } else {
      var f, g := FileBytes(c, b.part.file, b.part.pos, n), Bytes(c, mem, b)[..n];
      assert |f| == |g| == n && forall i :: 0 <= i < n ==> f[i] == c.content(b.part.file, b.part.pos + i) == g[i];
    }
  }

  function Unmarked(): Marks { Marks(false, false, false) }

  function Datas(s: seq<Byte>): seq<Item> { seq(|s|, i requires 0 <= i < |s| => Data(s[i])) }

  // the mark at the end of a buffer; one without bytes that is not special counts for nothing
  function Ending(c: Config, b: Buf): seq<Item> {
    if c.watch && b.marks != Unmarked() && (Size(b) > 0 || Special(b)) then [Mark(b.marks)] else []
  }

  // what a buffer stands for: its bytes, and then its marks
  ghost function At(c: Config, mem: Blocks, bufs: Bufs, r: Ref): seq<Item> {
    if r in bufs && BufOk(c, mem, bufs[r]) then Datas(Bytes(c, mem, bufs[r])) + Ending(c, bufs[r]) else []
  }

  // the items of a chain
  ghost function Stream(c: Config, mem: Blocks, bufs: Bufs, q: seq<Ref>): seq<Item> {
    if q == [] then [] else At(c, mem, bufs, q[0]) + Stream(c, mem, bufs, q[1..])
  }

  lemma {:induction false} StreamConcat(c: Config, mem: Blocks, bufs: Bufs, p: seq<Ref>, q: seq<Ref>)
    ensures Stream(c, mem, bufs, p + q) == Stream(c, mem, bufs, p) + Stream(c, mem, bufs, q)
  {
    if p == [] {
      assert p + q == q;
    } else {
      StreamConcat(c, mem, bufs, p[1..], q);
      assert (p + q)[1..] == p[1..] + q;
      Assoc(At(c, mem, bufs, p[0]), Stream(c, mem, bufs, p[1..]), Stream(c, mem, bufs, q));
    }
  }

  lemma {:induction false} StreamSame(c: Config, mem: Blocks, bufs: Bufs, mem': Blocks, bufs': Bufs, q: seq<Ref>)
    requires forall r :: r in q ==> At(c, mem, bufs, r) == At(c, mem', bufs', r)
    ensures Stream(c, mem, bufs, q) == Stream(c, mem', bufs', q)
  {
    if q != [] {
      assert q[0] in q && forall r :: r in q[1..] ==> r in q;
      StreamSame(c, mem, bufs, mem', bufs', q[1..]);
    }
  }

  lemma StreamPush(c: Config, mem: Blocks, bufs: Bufs, q: seq<Ref>, r: Ref)
    ensures Stream(c, mem, bufs, q + [r]) == Stream(c, mem, bufs, q) + At(c, mem, bufs, r)
  {
    StreamConcat(c, mem, bufs, q, [r]);
    assert [r][1..] == [];
  }

  // ngx_output_chain_as_is: which buffers need no copy
  predicate AsIs(c: Config, b: Buf) {
    Special(b) || ((InMemory(b) || (c.sendfile && !c.needInMemory)) && !(c.needInTemp && (b.memory || b.mmap)))
  }

  predicate Copies(c: Config, b: Buf) { !AsIs(c, b) && Size(b) > 0 }

  // lines 392-417: a buffer for the end of a chain need not be a full one
  predicate Fits(c: Config, b: Buf) {
    b.marks.lastInChain && (Size(b) < c.size || (c.num == 1 && Size(b) < c.size + c.size / 4))
  }

  function NewSize(c: Config, b: Buf): int { if Fits(c, b) then Size(b) else c.size }

  // A copy that may end in the middle of b goes to a buffer without marks.
  predicate Fine(c: Config, a: Account, b: Buf) { Copies(c, b) ==> !a.marked || Size(b) <= a.least }

  // The account once b is copied. A chain with one buffer of its own uses it for every copy, and
  // has it from the first one on; in others any may have kept the marks of an earlier copy,
  // and the end of a chain may have come to a smaller one.
  function Charge(c: Config, a: Account, b: Buf): Account {
    if !Copies(c, b) then a
    else if c.num == 1 then Account(b.marks != Unmarked(), if a.least == 0 then NewSize(c, b) else a.least)
    else Account(a.marked || b.marks != Unmarked(),
                 if !b.marks.lastInChain then a.least else if Size(b) <= a.least then Size(b) else 1)
  }

  ghost function After(c: Config, bufs: Bufs, q: seq<Ref>, a: Account): Account {
    if q == [] then a else After(c, bufs, q[1..], if q[0] in bufs then Charge(c, a, bufs[q[0]]) else a)
  }

  // Every buffer is either short enough for all the chain's own, or finds them without marks.
  ghost predicate Tidy(c: Config, bufs: Bufs, q: seq<Ref>, a: Account) {
    q == [] || (q[0] in bufs && Fine(c, a, bufs[q[0]]) && Tidy(c, bufs, q[1..], Charge(c, a, bufs[q[0]])))
  }

  // the account when all that waits is copied
  ghost function Later(c: Config, s: State): Account { After(c, s.bufs, s.waiting, s.acc) }

  predicate NoWorse(c: Config, a: Account, b: Account) {
    a == b || (c.num != 1 && (a.marked ==> b.marked) && 1 <= b.least <= a.least)
  }

  predicate Alike(c: Config, a: Buf, b: Buf) { a.marks == b.marks && AsIs(c, a) == AsIs(c, b) && Size(a) == Size(b) }

  // Where marks are watched, the chain's own buffers are as the account has them, and those
  // that wait are in order.
  ghost predicate Neat(c: Config, s: State) {
    c.watch ==>
      && Tidy(c, s.bufs, s.waiting, s.acc)
      && (if c.num == 1 then s.made == 0 <==> s.acc.least == 0 else 1 <= s.acc.least <= c.size)
      && (s.made == 0 ==> !s.acc.marked)
      && forall o {:trigger o in s.ours} :: o in s.ours && o in s.bufs ==>
          s.acc.least <= s.bufs[o].end && (s.bufs[o].marks != Unmarked() ==> s.acc.marked)
  }

  lemma {:induction false} TidyConcat(c: Config, bufs: Bufs, p: seq<Ref>, q: seq<Ref>, a: Account)
    ensures Tidy(c, bufs, p + q, a) <==> Tidy(c, bufs, p, a) && Tidy(c, bufs, q, After(c, bufs, p, a))
    ensures After(c, bufs, p + q, a) == After(c, bufs, q, After(c, bufs, p, a))
  {
    if p == [] {
      assert p + q == q;
    } else {
      assert (p + q)[0] == p[0] && (p + q)[1..] == p[1..] + q;
      TidyConcat(c, bufs, p[1..], q, if p[0] in bufs then Charge(c, a, bufs[p[0]]) else a);
    }
  }

  lemma {:induction false} TidySame(c: Config, bufs: Bufs, bufs': Bufs, q: seq<Ref>, a: Account)
    requires forall r {:trigger r in q} :: r in q ==> r in bufs && r in bufs' && Alike(c, bufs[r], bufs'[r])
    ensures Tidy(c, bufs, q, a) == Tidy(c, bufs', q, a) && After(c, bufs, q, a) == After(c, bufs', q, a)
  {
    if q != [] {
      assert q[0] in q && forall r :: r in q[1..] ==> r in q;
      TidySame(c, bufs, bufs', q[1..], Charge(c, a, bufs[q[0]]));
    }
  }

  lemma {:induction false} TidyNoWorse(c: Config, bufs: Bufs, q: seq<Ref>, a: Account, a': Account)
    requires NoWorse(c, a', a)
    ensures Tidy(c, bufs, q, a) ==> Tidy(c, bufs, q, a')
    ensures NoWorse(c, After(c, bufs, q, a'), After(c, bufs, q, a))
  {
    if q != [] {
      if q[0] in bufs {
        TidyNoWorse(c, bufs, q[1..], Charge(c, a, bufs[q[0]]), Charge(c, a', bufs[q[0]]));
      } else {
        TidyNoWorse(c, bufs, q[1..], a, a');
      }
    }
  }

  // What the filter is promised: a buffer is special, or it is in memory if the filter needs that
  // or there is no sendfile, and in memory that may be changed if the filter needs that.
  predicate Meets(c: Config, b: Buf) {
    || Special(b)
    || ((c.needInMemory || !c.sendfile ==> InMemory(b)) && (c.needInTemp ==> !b.memory && !b.mmap))
  }

  // without sendfile the filter sees no file
  predicate Suits(c: Config, b: Buf) { Meets(c, b) && (c.sendfile || Special(b) || !b.part.inFile) }

  // --- who holds what -----------------------------------------------------------------------

  // one of the chain's own buffers: a block of its own
  ghost predicate Own(c: Config, mem: Blocks, b: Buf) {
    && b.temporary && !b.memory && !b.mmap && b.tag == c.tag && b.block in mem
    && 0 == b.start <= b.pos <= b.last <= b.end == |mem[b.block]| && 0 < b.end && (c.sendfile || !b.part.inFile)
  }

  ghost predicate Empty(b: Buf) { b.pos == b.last == b.start }

  ghost predicate Placed(c: Config, s: State, out: seq<Ref>, r: Ref)
    requires r in s.bufs
  {
    var b := s.bufs[r];
    && 0 < r < s.top && BufOk(c, s.mem, b)
    && (r in s.ours <==> b.tag == c.tag) && (r in s.ours ==> Own(c, s.mem, b))
    && (r in s.waiting ==> r !in s.ours && r !in out && r !in s.busy && r !in s.down)
    && (r in out ==> r !in s.busy && r !in s.down)
    && (r in s.spare || r == s.buf ==> r in s.ours && Empty(b) && r !in out && r !in s.busy && r !in s.down)
    && (r in s.spare ==> r != s.buf)
    && (r in s.ours && (r in out || r in s.down) ==> Size(b) > 0)
    && (r in s.busy && Size(b) > 0 ==> r in s.down)
    && (r in s.ours ==> r in s.spare || r in s.busy || r in out || r == s.buf || r in s.lost)
    && (r in out || r in s.down ==> Suits(c, b))
    && (r in s.lost ==> r in s.ours && r !in s.spare && r !in s.busy && r !in out && r != s.buf)
  }

  // no block of the chain's own is seen through another buffer
  ghost predicate Apart(s: State, q: Ref, r: Ref)
    requires q in s.bufs && r in s.bufs
  {
    q in s.ours && q != r && InMemory(s.bufs[r]) ==> s.bufs[q].block != s.bufs[r].block
  }

  ghost predicate Known(s: State, out: seq<Ref>) {
    && (forall r {:trigger r in s.bufs} :: (r in s.waiting || r in s.spare
          || r in s.busy || r in s.down || r in out || r in s.ours) ==> r in s.bufs)
    && s.lost <= s.ours && (s.buf != NIL ==> s.buf in s.bufs)
    && NoDup(s.waiting) && NoDup(s.spare) && NoDup(s.busy) && NoDup(s.down) && NoDup(out)
    && forall k {:trigger k in s.mem} :: k in s.mem ==> k < s.top
  }

  ghost predicate Inv(c: Config, s: State, out: seq<Ref>) {
    && Known(s, out)
    && (forall r {:trigger Placed(c, s, out, r)} :: r in s.bufs ==> Placed(c, s, out, r))
    && (forall q, r {:trigger Apart(s, q, r)} :: q in s.bufs && r in s.bufs ==> Apart(s, q, r))
    && s.made == |s.ours| && s.made <= c.num && 0 < c.size
    && s.handed == s.sent + Stream(c, s.mem, s.bufs, s.down) && Neat(c, s)
  }

  // the buffers of a chain as they go to the filter
  ghost function Buffers(c: Config, s: State, out: seq<Ref>): (r: seq<Buf>)
    requires Inv(c, s, out)
    ensures |r| == |out| && forall i :: 0 <= i < |r| ==> out[i] in s.bufs && r[i] == s.bufs[out[i]] && Suits(c, r[i])
  {
    assert forall i :: 0 <= i < |out| ==> out[i] in s.bufs && Placed(c, s, out, out[i]);
    seq(|out|, i requires 0 <= i < |out| => s.bufs[out[i]])
  }

  // a step that leaves the chain's own buffers their marks, and lets those wait that need a copy
  lemma NeatKept(c: Config, s: State, t: State)
    requires Neat(c, s) && t.acc == s.acc && t.made == s.made
    requires t.waiting == s.waiting
          || (s.waiting != [] && s.waiting[0] in s.bufs && !Copies(c, s.bufs[s.waiting[0]]) &&
              t.waiting == s.waiting[1..])
    requires forall r {:trigger r in t.waiting} ::
        r in t.waiting ==> r in s.bufs && r in t.bufs && Alike(c, s.bufs[r], t.bufs[r])
    requires forall o {:trigger o in t.ours} :: o in t.ours && o in t.bufs ==>
        o in s.ours && o in s.bufs && t.bufs[o].marks == s.bufs[o].marks && t.bufs[o].end == s.bufs[o].end
    ensures Neat(c, t) && Later(c, t) == Later(c, s)
  {
    TidySame(c, s.bufs, t.bufs, t.waiting, s.acc);
  }

  // nothing changes but a buffer that does not wait, and that keeps its marks
  lemma SideKept(c: Config, s: State, t: State, r: Ref)
    requires Neat(c, s) && t.acc == s.acc && t.made == s.made && t.waiting == s.waiting && t.ours == s.ours
    requires r !in s.waiting && r in s.bufs && r in t.bufs && t.bufs == s.bufs[r := t.bufs[r]]
    requires t.bufs[r].marks == s.bufs[r].marks && t.bufs[r].end == s.bufs[r].end
    requires forall q {:trigger q in s.waiting} :: q in s.waiting ==> q in s.bufs
    ensures Neat(c, t) && Later(c, t) == Later(c, s)
  {
    NeatKept(c, s, t);
  }

  // --- the steps ------------------------------------------------------------------------------

  lemma Tail<T(!new)>(q: seq<T>)
    requires NoDup(q) && q != []
    ensures NoDup(q[1..]) && q[0] !in q[1..] && q == [q[0]] + q[1..]
    ensures forall x :: x in q <==> x == q[0] || x in q[1..]
  {
    forall x | x in q ensures x == q[0] || x in q[1..] {
      var i :| 0 <= i < |q| && q[i] == x;
      if i > 0 { assert q[1..][i - 1] == x; }
    }
    assert forall i :: 0 <= i < |q| - 1 ==> q[1..][i] == q[i + 1];
  }

  lemma Push<T(!new)>(q: seq<T>, x: T)
    requires NoDup(q) && x !in q
    ensures NoDup(q + [x])
  {}

  // one buffer is rewritten in place
  function Put(s: State, r: Ref, b: Buf): State { s.(bufs := s.bufs[r := b]) }

  // a buffer that the chain does not own and has not handed over
  lemma PutInv(c: Config, s: State, out: seq<Ref>, r: Ref, b: Buf)
    requires Inv(c, s, out) && r in s.bufs && r !in s.ours && b.tag == s.bufs[r].tag && b.block == s.bufs[r].block
    requires InMemory(b) == InMemory(s.bufs[r]) && BufOk(c, s.mem, b) && r !in s.busy && r !in s.down
    requires Alike(c, s.bufs[r], b) && (r in out ==> Suits(c, b))
    ensures Inv(c, Put(s, r, b), out) && Later(c, Put(s, r, b)) == Later(c, s)
    ensures forall q {:trigger At(c, s.mem, Put(s, r, b).bufs, q)} :: q != r ==>
        At(c, s.mem, Put(s, r, b).bufs, q) == At(c, s.mem, s.bufs, q)
  {
    var t := Put(s, r, b);
    assert Placed(c, s, out, r);
    forall q | q in t.bufs ensures Placed(c, t, out, q) { assert Placed(c, s, out, q); }
    forall p, q | p in t.bufs && q in t.bufs ensures Apart(t, p, q) { assert Apart(s, p, q); }
    StreamSame(c, s.mem, s.bufs, t.mem, t.bufs, s.down);
    NeatKept(c, s, t);
  }

  // ctx->in = ctx->in->next, past a buffer without bytes
  lemma SkipInv(c: Config, s: State, out: seq<Ref>)
    requires Inv(c, s, out) && s.waiting != [] && Size(s.bufs[s.waiting[0]]) == 0 && !Special(s.bufs[s.waiting[0]])
    ensures Inv(c, s.(waiting := s.waiting[1..]), out) && Later(c, s.(waiting := s.waiting[1..])) == Later(c, s)
    ensures Stream(c, s.mem, s.bufs, s.waiting) == Stream(c, s.mem, s.bufs, s.waiting[1..])
  {
    var t := s.(waiting := s.waiting[1..]);
    Tail(s.waiting);
    assert Placed(c, s, out, s.waiting[0]);
    forall q | q in t.bufs ensures Placed(c, t, out, q) { assert Placed(c, s, out, q); }
    forall p, q | p in t.bufs && q in t.bufs ensures Apart(t, p, q) { assert Apart(s, p, q); }
    NeatKept(c, s, t);
  }

  // the chain link moves from ctx->in to out
  lemma PassInv(c: Config, s: State, out: seq<Ref>)
    requires Inv(c, s, out) && s.waiting != [] && s.waiting[0] in s.bufs && Suits(c, s.bufs[s.waiting[0]])
    ensures Inv(c, s.(waiting := s.waiting[1..]), out + [s.waiting[0]])
    ensures Later(c, s.(waiting := s.waiting[1..])) == Later(c, s)
  {
    var t, r := s.(waiting := s.waiting[1..]), s.waiting[0];
    Tail(s.waiting);
    assert Placed(c, s, out, r);
    Push(out, r);
    forall q | q in t.bufs ensures Placed(c, t, out + [r], q) { assert Placed(c, s, out, q); }
    forall p, q | p in t.bufs && q in t.bufs ensures Apart(t, p, q) { assert Apart(s, p, q); }
    NeatKept(c, s, t);
  }

  lemma PassBytes(c: Config, s: State, out: seq<Ref>)
    requires s.waiting != []
    ensures Stream(c, s.mem, s.bufs, out + [s.waiting[0]]) + Stream(c, s.mem, s.bufs, s.waiting[1..])
         == Stream(c, s.mem, s.bufs, out) + Stream(c, s.mem, s.bufs, s.waiting)
  {
    StreamPush(c, s.mem, s.bufs, out, s.waiting[0]);
  }

  // ctx->buf is taken from ctx->free
  function Taken(s: State): State
    requires s.spare != []
  {
    s.(buf := s.spare[0], spare := s.spare[1..])
  }

  lemma TakenInv(c: Config, s: State, out: seq<Ref>)
    requires Inv(c, s, out) && s.spare != [] && s.buf == NIL
    ensures Inv(c, Taken(s), out) && Taken(s).buf != NIL && Later(c, Taken(s)) == Later(c, s)
  {
    var t := Taken(s);
    Tail(s.spare);
    assert Placed(c, s, out, s.spare[0]);
    forall q | q in t.bufs ensures Placed(c, t, out, q) { assert Placed(c, s, out, q); }
    forall p, q | p in t.bufs && q in t.bufs ensures Apart(t, p, q) { assert Apart(s, p, q); }
    NeatKept(c, s, t);
  }

  function NewBuf(block: nat, size: nat, tag: nat, recycled: bool): Buf {
    Buf(block, 0, 0, 0, size, true, false, false, Part(false, 0, 0, 0), recycled, false, Unmarked(), tag)
  }

  // ngx_output_chain_get_buf: a new buffer in a new block
  function Got(c: Config, s: State, data: seq<Byte>, recycled: bool): State {
    s.(bufs := s.bufs[s.top := NewBuf(s.top, |data|, c.tag, recycled)], mem := s.mem[s.top := data],
       top := s.top + 1, buf := s.top, made := s.made + 1, ours := s.ours + {s.top}, acc := Enlisted(c, s.acc, |data|))
  }

  // a new buffer of the chain's own
  function Enlisted(c: Config, a: Account, size: nat): Account {
    a.(least := if c.num == 1 || size < a.least then size else a.least)
  }

  lemma GotNeat(c: Config, s: State, t: State, data: seq<Byte>, recycled: bool)
    requires Neat(c, s) && t == Got(c, s, data, recycled) && s.top !in s.bufs && s.made < c.num && s.made == |s.ours|
    requires 0 < c.size
    requires s.waiting != [] && s.waiting[0] in s.bufs && Copies(c, s.bufs[s.waiting[0]])
    requires |data| == NewSize(c, s.bufs[s.waiting[0]])
    requires forall r {:trigger r in s.waiting} :: r in s.waiting ==> r in s.bufs
    ensures Neat(c, t) && (c.watch ==> Later(c, t) == Later(c, s))
  {
    if c.watch {
      var b := s.bufs[s.waiting[0]];
      assert s.waiting[0] in s.waiting && forall r :: r in s.waiting[1..] ==> r in s.waiting;
      TidySame(c, s.bufs, t.bufs, s.waiting[1..], Charge(c, s.acc, b));
      assert Charge(c, t.acc, b) == Charge(c, s.acc, b);
      assert c.num == 1 ==> s.ours == {};
    }
  }

  lemma GotInv(c: Config, s: State, t: State, out: seq<Ref>, data: seq<Byte>, recycled: bool)
    requires Inv(c, s, out) && t == Got(c, s, data, recycled) && s.buf == NIL && s.top > 0 && |data| > 0
    requires s.made < c.num && s.waiting != [] && Copies(c, s.bufs[s.waiting[0]])
    requires |data| == NewSize(c, s.bufs[s.waiting[0]])
    ensures Inv(c, t, out) && (c.watch ==> Later(c, t) == Later(c, s))
    ensures forall q {:trigger q in s.bufs} :: q in s.bufs ==>
        q != s.top && At(c, t.mem, t.bufs, q) == At(c, s.mem, s.bufs, q)
  {
    forall q | q in s.bufs
      ensures q < s.top && Placed(c, t, out, q) && At(c, t.mem, t.bufs, q) == At(c, s.mem, s.bufs, q)
    {
      assert Placed(c, s, out, q);
    }
    assert Placed(c, t, out, s.top);
    forall p, q | p in t.bufs && q in t.bufs ensures Apart(t, p, q) {
      if p != s.top { assert Placed(c, s, out, p); }
      if q != s.top { assert Placed(c, s, out, q); }
      if p != s.top && q != s.top { assert Apart(s, p, q); }
    }
    StreamSame(c, s.mem, s.bufs, t.mem, t.bufs, s.down);
    GotNeat(c, s, t, data, recycled);
  }

  // --- ngx_output_chain_copy_buf ------------------------------------------------------------------

  function Amount(src: Buf, dst: Buf): int { if Size(src) < dst.end - dst.pos then Size(src) else dst.end - dst.pos }

  // n bytes less to send
  function Advance(b: Buf, n: nat): Buf {
    b.(pos := if InMemory(b) then b.pos + n else b.pos,
       part := if b.part.inFile then b.part.(pos := b.part.pos + n) else b.part)
  }

  function Filled(c: Config, src: Buf, dst: Buf, n: nat): Buf {
    dst.(last := dst.last + n,
         part := if src.part.inFile && c.sendfile then Part(true, src.part.file, src.part.pos, src.part.pos + n)
               else dst.part.(inFile := false),
         marks := if Size(src) == n then src.marks else dst.marks)
  }

  function Written(data: seq<Byte>, pos: nat, bytes: seq<Byte>): (r: seq<Byte>)
    requires pos + |bytes| <= |data|
    ensures |r| == |data| && r[pos..pos + |bytes|] == bytes
  {
    data[..pos] + bytes + data[pos + |bytes|..]
  }

  lemma AdvanceOk(c: Config, mem: Blocks, b: Buf, n: nat)
    requires BufOk(c, mem, b) && n <= Size(b)
    ensures BufOk(c, mem, Advance(b, n)) && Bytes(c, mem, b)[n..] == Bytes(c, mem, Advance(b, n))
  {
    var b' := Advance(b, n);
    if b.part.inFile {
      var k := b.part.last - b.part.pos;
      assert InMemory(b) ==> |mem[b.block][b.pos..b.last]| == k;
      assert FileBytes(c, b.part.file, b.part.pos, k)[n..] == FileBytes(c, b.part.file, b.part.pos + n, k - n);
    }
    if InMemory(b) {
      assert mem[b.block][b.pos..b.last][n..] == mem[b.block][b.pos + n..b.last];
    }
  }

  lemma FilledOk(c: Config, mem: Blocks, src: Buf, dst: Buf, n: nat)
    requires BufOk(c, mem, src) && Own(c, mem, dst) && Empty(dst) && n <= Size(src) && n <= dst.end
    ensures BufOk(c, mem[dst.block := Written(mem[dst.block], 0, Bytes(c, mem, src)[..n])], Filled(c, src, dst, n))
    ensures Bytes(c, mem[dst.block := Written(mem[dst.block], 0, Bytes(c, mem, src)[..n])], Filled(c, src, dst, n))
          == Bytes(c, mem, src)[..n]
    ensures Own(c, mem[dst.block := Written(mem[dst.block], 0, Bytes(c, mem, src)[..n])], Filled(c, src, dst, n))
  {
    if src.part.inFile {
      var k := src.part.last - src.part.pos;
      assert InMemory(src) ==> |mem[src.block][src.pos..src.last]| == k;
      assert FileBytes(c, src.part.file, src.part.pos, k)[..n] == FileBytes(c, src.part.file, src.part.pos, n);
    }
  }

  ghost predicate Copying(c: Config, s: State) {
    && s.waiting != [] && s.waiting[0] in s.bufs && s.buf in s.bufs && s.bufs[s.buf].block in s.mem
    && BufOk(c, s.mem, s.bufs[s.waiting[0]])
    && 0 <= Amount(s.bufs[s.waiting[0]], s.bufs[s.buf]) <= |s.mem[s.bufs[s.buf].block]|
  }

  // the first bytes of ctx->in are copied into ctx->buf
  ghost function Copied(c: Config, s: State): State
    requires Copying(c, s)
  {
    var r, src, dst := s.waiting[0], s.bufs[s.waiting[0]], s.bufs[s.buf];
    var n := Amount(src, dst);
    s.(bufs := s.bufs[r := Advance(src, n)][s.buf := Filled(c, src, dst, n)],
       mem := s.mem[dst.block := Written(s.mem[dst.block], 0, Bytes(c, s.mem, src)[..n])])
  }

  // Only the two buffers change: what the one gains is what the other loses.
  ghost predicate Shifted(c: Config, s: State, t: State) {
    && t == s.(bufs := t.bufs, mem := t.mem) && t.bufs.Keys == s.bufs.Keys && t.mem.Keys == s.mem.Keys
    && s.waiting != [] && s.waiting[0] in s.bufs && s.buf in s.bufs && s.waiting[0] != s.buf
    && (forall q {:trigger t.bufs[q]} :: q in s.bufs ==> SameKind(s.bufs[q], t.bufs[q]))
    && (forall q {:trigger Kept(c, s, t, q)} :: q in s.bufs && q != s.waiting[0] && q != s.buf ==> Kept(c, s, t, q))
    && BufOk(c, t.mem, t.bufs[s.waiting[0]]) && Own(c, t.mem, t.bufs[s.buf]) && BufOk(c, t.mem, t.bufs[s.buf])
    && Size(t.bufs[s.buf]) > 0
    && At(c, s.mem, s.bufs, s.waiting[0]) == At(c, t.mem, t.bufs, s.buf) + At(c, t.mem, t.bufs, s.waiting[0])
    && At(c, t.mem, t.bufs, s.buf) != [] && SameFlags(c, s.bufs[s.waiting[0]], t.bufs[s.waiting[0]])
    && Size(t.bufs[s.buf]) + Size(t.bufs[s.waiting[0]]) == Size(s.bufs[s.waiting[0]])
    && (Size(t.bufs[s.waiting[0]]) > 0 ==> s.bufs[s.buf].end < Size(s.bufs[s.waiting[0]]))
    && t.bufs[s.buf].end == s.bufs[s.buf].end
    && t.bufs[s.buf].marks == if Size(t.bufs[s.waiting[0]]) == 0 then s.bufs[s.waiting[0]].marks
        else s.bufs[s.buf].marks
  }

  predicate SameFlags(c: Config, a: Buf, b: Buf) { a.marks == b.marks && AsIs(c, a) == AsIs(c, b) }

  ghost predicate SameKind(a: Buf, b: Buf) { a.block == b.block && InMemory(a) == InMemory(b) && a.tag == b.tag }

  ghost predicate Kept(c: Config, s: State, t: State, q: Ref)
    requires q in s.bufs && q in t.bufs
  {
    && t.bufs[q] == s.bufs[q] && At(c, t.mem, t.bufs, q) == At(c, s.mem, s.bufs, q)
    && (BufOk(c, s.mem, s.bufs[q]) ==> BufOk(c, t.mem, s.bufs[q]))
    && (Own(c, s.mem, s.bufs[q]) ==> Own(c, t.mem, s.bufs[q]))
  }

  // the head of ctx->in needs a copy, and there is a buffer for it
  ghost predicate Ready(c: Config, s: State, out: seq<Ref>) {
    && Inv(c, s, out) && s.waiting != [] && s.buf != NIL && Size(s.bufs[s.waiting[0]]) > 0
    && !AsIs(c, s.bufs[s.waiting[0]])
  }

  lemma CopiedHead(c: Config, s: State, out: seq<Ref>)
    requires Ready(c, s, out)
    ensures Placed(c, s, out, s.waiting[0]) && Placed(c, s, out, s.buf) && Apart(s, s.buf, s.waiting[0])
    ensures var t, r := Copied(c, s), s.waiting[0]; var n := Amount(s.bufs[r], s.bufs[s.buf]);
            && r != s.buf && n > 0 && BufOk(c, t.mem, t.bufs[r]) && BufOk(c, t.mem, t.bufs[s.buf])
            && Own(c, t.mem, t.bufs[s.buf])
            && Bytes(c, t.mem, t.bufs[r]) == Bytes(c, s.mem, s.bufs[r])[n..]
            && Bytes(c, t.mem, t.bufs[s.buf]) == Bytes(c, s.mem, s.bufs[r])[..n]
  {
    var r := s.waiting[0];
    assert Placed(c, s, out, r) && Placed(c, s, out, s.buf);
    var src, dst := s.bufs[r], s.bufs[s.buf];
    var n, t := Amount(src, dst), Copied(c, s);
    assert Apart(s, s.buf, r);
    FilledOk(c, s.mem, src, dst, n);
    AdvanceOk(c, s.mem, src, n);
    assert BufOk(c, t.mem, t.bufs[r]) && Bytes(c, t.mem, t.bufs[r]) == Bytes(c, s.mem, t.bufs[r]);
  }

  // Where marks are watched, a buffer that is not filled with the end of its source has none.
  lemma ShortOrBare(c: Config, s: State, out: seq<Ref>)
    requires Ready(c, s, out) && c.watch
    ensures s.buf in s.bufs && (Size(s.bufs[s.waiting[0]]) <= s.bufs[s.buf].end || s.bufs[s.buf].marks == Unmarked())
  {
    assert Placed(c, s, out, s.buf) && s.buf in s.ours;
  }

  lemma CopiedItems(c: Config, s: State, out: seq<Ref>)
    requires Ready(c, s, out)
    ensures Copying(c, s)
    ensures var t, r := Copied(c, s), s.waiting[0];
            At(c, s.mem, s.bufs, r) == At(c, t.mem, t.bufs, s.buf) + At(c, t.mem, t.bufs, r) &&
                At(c, t.mem, t.bufs, s.buf) != []
  {
    var r := s.waiting[0];
    CopiedHead(c, s, out);
    var t, n := Copied(c, s), Amount(s.bufs[r], s.bufs[s.buf]);
    var b := Bytes(c, s.mem, s.bufs[r]);
    if c.watch { ShortOrBare(c, s, out); }
    CopiedEndings(c, s.bufs[r], s.bufs[s.buf], n);
    JoinItems(b, n, Ending(c, t.bufs[s.buf]), Ending(c, t.bufs[r]), Ending(c, s.bufs[r]));
  }

  lemma CopiedEndings(c: Config, src: Buf, dst: Buf, n: nat)
    requires 0 < n <= Size(src) && dst.temporary && Empty(dst) && !Special(src)
    requires c.watch && n < Size(src) ==> dst.marks == Unmarked()
    ensures n < Size(src) ==> Ending(c, Filled(c, src, dst, n)) == [] && Ending(c, Advance(src, n)) == Ending(c, src)
    ensures n == Size(src) && (InMemory(src) || src.part.inFile) ==>
        Ending(c, Filled(c, src, dst, n)) == Ending(c, src) && Ending(c, Advance(src, n)) == []
  {}

  lemma JoinItems(b: seq<Byte>, n: nat, e1: seq<Item>, e2: seq<Item>, e: seq<Item>)
    requires 0 < n <= |b| && if n < |b| then e1 == [] && e2 == e else e1 == e && e2 == []
    ensures Datas(b) + e == (Datas(b[..n]) + e1) + (Datas(b[n..]) + e2) && Datas(b[..n]) != []
  {
    assert Datas(b) == Datas(b[..n]) + Datas(b[n..]);
    if n == |b| { assert b[n..] == [] && Datas([]) == []; }
  }

  lemma CopiedBytes(c: Config, s: State, out: seq<Ref>)
    requires Ready(c, s, out)
    ensures Placed(c, s, out, s.waiting[0]) && Placed(c, s, out, s.buf)
    ensures Shifted(c, s, Copied(c, s))
  {
    var r := s.waiting[0];
    CopiedHead(c, s, out);
    CopiedItems(c, s, out);
    var t := Copied(c, s);
    forall q | q in s.bufs && q != r && q != s.buf ensures Kept(c, s, t, q) {
      assert Apart(s, s.buf, q);
      assert Placed(c, s, out, q);
    }
  }

  lemma Assoc<T>(a: seq<T>, b: seq<T>, d: seq<T>)
    ensures (a + b) + d == a + (b + d)
  {}

  lemma Regroup<T>(a: seq<T>, b: seq<T>, d: seq<T>, e: seq<T>)
    ensures (a + b) + (d + e) == a + ((b + d) + e)
  {}

  // what is left to wait
  function Rest(t: State): seq<Ref>
    requires t.waiting != [] && t.waiting[0] in t.bufs
  {
    if Size(t.bufs[t.waiting[0]]) == 0 then t.waiting[1..] else t.waiting
  }

  // the copy goes out, and its source waits if it has bytes left
  ghost function Moved(c: Config, s: State): State
    requires Copying(c, s)
  {
    var t := Copied(c, s);
    Settled(c, s, t)
  }

  // ctx->buf is on its way; a source that is copied to its end counts
  function Settled(c: Config, s: State, t: State): State
    requires t.waiting != [] && t.waiting[0] in t.bufs && t.waiting[0] in s.bufs
  {
    var r := t.waiting[0];
    t.(buf := NIL, waiting := Rest(t), acc := if Size(t.bufs[r]) == 0 then Charge(c, s.acc, s.bufs[r]) else s.acc)
  }

  lemma ShiftedOthers(c: Config, s: State, t: State, out: seq<Ref>)
    requires Inv(c, s, out) && Shifted(c, s, t)
    ensures Stream(c, t.mem, t.bufs, s.down) == Stream(c, s.mem, s.bufs, s.down)
    ensures Stream(c, t.mem, t.bufs, out) == Stream(c, s.mem, s.bufs, out)
    ensures Stream(c, t.mem, t.bufs, s.waiting[1..]) == Stream(c, s.mem, s.bufs, s.waiting[1..])
  {
    Tail(s.waiting);
    assert Placed(c, s, out, s.waiting[0]) && Placed(c, s, out, s.buf);
    forall q | q in s.down || q in out || q in s.waiting[1..]
      ensures At(c, t.mem, t.bufs, q) == At(c, s.mem, s.bufs, q)
    {
      assert q in s.bufs && q != s.buf && q != s.waiting[0];
      assert Kept(c, s, t, q);
    }
    StreamSame(c, s.mem, s.bufs, t.mem, t.bufs, s.down);
    StreamSame(c, s.mem, s.bufs, t.mem, t.bufs, out);
    StreamSame(c, s.mem, s.bufs, t.mem, t.bufs, s.waiting[1..]);
  }

  // what waits, once a copy was made of a part of the first buffer
  lemma RestStream(c: Config, s: State, t: State)
    requires Shifted(c, s, t) && !AsIs(c, s.bufs[s.waiting[0]])
    ensures Stream(c, t.mem, t.bufs, Rest(t))
        == At(c, t.mem, t.bufs, s.waiting[0]) + Stream(c, t.mem, t.bufs, s.waiting[1..])
  {
    var b := t.bufs[s.waiting[0]];
    if Size(b) == 0 { assert !AsIs(c, b) && Datas([]) == []; }
  }

  lemma ShiftedStreams(c: Config, s: State, t: State, out: seq<Ref>)
    requires Inv(c, s, out) && Shifted(c, s, t) && !AsIs(c, s.bufs[s.waiting[0]])
    ensures Stream(c, t.mem, t.bufs, s.down) == Stream(c, s.mem, s.bufs, s.down)
    ensures Stream(c, t.mem, t.bufs, out + [s.buf]) + Stream(c, t.mem, t.bufs, Rest(t))
          == Stream(c, s.mem, s.bufs, out) + Stream(c, s.mem, s.bufs, s.waiting)
    ensures |Stream(c, t.mem, t.bufs, Rest(t))| < |Stream(c, s.mem, s.bufs, s.waiting)|
  {
    ShiftedOthers(c, s, t, out);
    StreamPush(c, t.mem, t.bufs, out, s.buf);
    RestStream(c, s, t);
    Regroup(Stream(c, s.mem, s.bufs, out), At(c, t.mem, t.bufs, s.buf), At(c,
          t.mem, t.bufs, s.waiting[0]), Stream(c, s.mem, s.bufs, s.waiting[1..]));
  }

  lemma ShiftedNeat(c: Config, s: State, t: State, out: seq<Ref>)
    requires Inv(c, s, out) && Shifted(c, s, t) && s.buf != NIL && Copies(c, s.bufs[s.waiting[0]])
    ensures Neat(c, Settled(c, s, t)) && (c.watch ==> NoWorse(c, Later(c, Settled(c, s, t)), Later(c, s)))
  {
    if c.watch {
      var r := s.waiting[0];
      Tail(s.waiting);
      assert Placed(c, s, out, r) && Placed(c, s, out, s.buf) && r in s.waiting && s.buf in s.ours;
      forall q | q in s.bufs && q != r && q != s.buf ensures t.bufs[q] == s.bufs[q] { assert Kept(c, s, t, q); }
      var a := Charge(c, s.acc, s.bufs[r]);
      TidySame(c, s.bufs, t.bufs, s.waiting[1..], a);
      if Size(t.bufs[r]) == 0 {
        if c.num == 1 { OnlyBuf(s.ours, s.buf); }
      } else {
        PartNeat(c, s, t, r, a);
      }
    }
  }

  lemma OnlyBuf(ours: set<Ref>, o: Ref)
    requires |ours| <= 1 && o in ours
    ensures ours == {o}
  {
    assert |ours - {o}| == 0;
  }

  // a part was copied, so that none of the chain's own has marks
  lemma PartNeat(c: Config, s: State, t: State, r: Ref, a: Account)
    requires c.watch && Neat(c, s) && Shifted(c, s, t) && r == s.waiting[0] && s.buf in s.ours && s.made > 0
    requires r !in s.ours
    requires Copies(c, s.bufs[r]) && Size(t.bufs[r]) > 0 && a == Charge(c, s.acc, s.bufs[r])
    requires Tidy(c, t.bufs, s.waiting[1..], a) && After(c, t.bufs, s.waiting[1..], a) == Later(c, s)
    requires forall q {:trigger t.bufs[q]} :: q in s.bufs && q != r && q != s.buf ==> t.bufs[q] == s.bufs[q]
    ensures Neat(c, Settled(c, s, t)) && NoWorse(c, Later(c, Settled(c, s, t)), Later(c, s))
  {
    assert !s.acc.marked;
    assert Settled(c, s, t).waiting == s.waiting;
    assert NoWorse(c, Charge(c, s.acc, t.bufs[r]), a);
    TidyNoWorse(c, t.bufs, s.waiting[1..], a, Charge(c, s.acc, t.bufs[r]));
  }

  lemma ShiftedInv(c: Config, s: State, t: State, out: seq<Ref>)
    requires Inv(c, s, out) && Shifted(c, s, t) && s.buf != NIL && Copies(c, s.bufs[s.waiting[0]])
    ensures Inv(c, Settled(c, s, t), out + [s.buf]) && (c.watch ==> NoWorse(c, Later(c, Settled(c, s, t)), Later(c, s)))
  {
    var u := Settled(c, s, t);
    Tail(s.waiting);
    assert Placed(c, s, out, s.waiting[0]) && Placed(c, s, out, s.buf);
    Push(out, s.buf);
    forall q | q in u.bufs ensures Placed(c, u, out + [s.buf], q) {
      assert Placed(c, s, out, q);
      assert q != s.waiting[0] && q != s.buf ==> Kept(c, s, t, q);
    }
    forall p, q | p in u.bufs && q in u.bufs ensures Apart(u, p, q) { assert Apart(s, p, q); }
    ShiftedStreams(c, s, t, out);
    ShiftedNeat(c, s, t, out);
  }

  // --- the filter, and ngx_chain_update_chains ------------------------------------------------------

  // The filter takes the chain over, and the chain is put behind ctx->busy.
  ghost function Given(c: Config, s: State, out: seq<Ref>): State {
    s.(down := s.down + out, busy := s.busy + out, handed := s.handed + Stream(c, s.mem, s.bufs, out))
  }

  lemma JoinNoDup<T(!new)>(p: seq<T>, q: seq<T>)
    requires NoDup(p) && NoDup(q) && forall x :: x in p ==> x !in q
    ensures NoDup(p + q)
  {
    forall i, j | 0 <= i < j < |p + q| ensures (p + q)[i] != (p + q)[j] {
      assert i < |p| ==> (p + q)[i] in p;
      assert j >= |p| ==> (p + q)[j] in q;
    }
  }

  lemma GivenInv(c: Config, s: State, out: seq<Ref>)
    requires Inv(c, s, out)
    ensures Inv(c, Given(c, s, out), [])
  {
    var t := Given(c, s, out);
    forall r | r in out ensures r !in s.busy && r !in s.down { assert r in s.bufs && Placed(c, s, out, r); }
    JoinNoDup(s.busy, out);
    JoinNoDup(s.down, out);
    forall q | q in t.bufs ensures Placed(c, t, [], q) { assert Placed(c, s, out, q); }
    forall p, q | p in t.bufs && q in t.bufs ensures Apart(t, p, q) { assert Apart(s, p, q); }
    StreamConcat(c, s.mem, s.bufs, s.down, out);
    Assoc(s.sent, Stream(c, s.mem, s.bufs, s.down), Stream(c, s.mem, s.bufs, out));
    NeatKept(c, s, t);
  }

  ghost function First(items: seq<Item>, n: nat, whole: bool): seq<Item> {
    if whole || n > |items| then items else items[..n]
  }

  // n bytes of the first buffer that the filter holds are sent; a buffer that is sent whole leaves the filter
  ghost function Sent(c: Config, s: State, n: nat): State
    requires s.down != [] && s.down[0] in s.bufs
  {
    var r := s.down[0];
    s.(bufs := s.bufs[r := Advance(s.bufs[r], n)], down := if n == Size(s.bufs[r]) then s.down[1..] else s.down,
       sent := s.sent + First(At(c, s.mem, s.bufs, r), n, n == Size(s.bufs[r])))
  }

  lemma SentPlaced(c: Config, s: State, n: nat, q: Ref)
    requires Inv(c, s, []) && s.down != [] && s.down[0] in s.bufs && n <= Size(s.bufs[s.down[0]]) && q in s.bufs
    ensures Placed(c, Sent(c, s, n), [], q)
  {
    var r := s.down[0];
    Tail(s.down);
    assert Placed(c, s, [], q) && Placed(c, s, [], r);
    AdvanceOk(c, s.mem, s.bufs[r], n);
  }

  lemma SentBytes(c: Config, s: State, n: nat)
    requires Inv(c, s, []) && s.down != [] && s.down[0] in s.bufs && n <= Size(s.bufs[s.down[0]])
    ensures var t, r := Sent(c, s, n), s.down[0]; var a := At(c, s.mem, s.bufs, r);
            && (n < Size(s.bufs[r]) ==> a == First(a, n, false) + At(c, t.mem, t.bufs, r))
            && forall q {:trigger At(c, t.mem, t.bufs, q)} :: q != r ==>
                At(c, t.mem, t.bufs, q) == At(c, s.mem, s.bufs, q)
  {
    var b := s.bufs[s.down[0]];
    assert Placed(c, s, [], s.down[0]);
    AdvanceOk(c, s.mem, b, n);
    AtSplits(c, s.mem, s.bufs, Sent(c, s, n).bufs, s.down[0], n);
  }

  // a buffer that is sent in part
  lemma AtSplits(c: Config, mem: Blocks, bufs: Bufs, bufs': Bufs, r: Ref, n: nat)
    requires r in bufs && r in bufs' && BufOk(c, mem, bufs[r]) && n <= Size(bufs[r]) && bufs'[r] == Advance(bufs[r], n)
    requires BufOk(c, mem, bufs'[r]) && Bytes(c, mem, bufs[r])[n..] == Bytes(c, mem, bufs'[r])
    ensures n <= |At(c, mem, bufs, r)| && At(c, mem, bufs, r)[..n] == Datas(Bytes(c, mem, bufs[r])[..n])
    ensures n < Size(bufs[r]) ==> At(c, mem, bufs, r) == At(c, mem, bufs, r)[..n] + At(c, mem, bufs', r)
    ensures n == Size(bufs[r]) && !Special(bufs[r]) ==> At(c, mem, bufs', r) == []
  {
    var b := Bytes(c, mem, bufs[r]);
    assert Datas(b)[..n] == Datas(b[..n]) && Datas(b) == Datas(b[..n]) + Datas(b[n..]);
    if n < Size(bufs[r]) { assert Ending(c, bufs[r]) == Ending(c, bufs'[r]); }
  }

  lemma SentStreams(c: Config, s: State, t: State, n: nat)
    requires Inv(c, s, []) && s.down != [] && s.down[0] in s.bufs && n <= Size(s.bufs[s.down[0]]) && t == Sent(c, s, n)
    ensures Stream(c, t.mem, t.bufs, s.waiting) == Stream(c, s.mem, s.bufs, s.waiting)
    ensures t.sent + Stream(c, t.mem, t.bufs, t.down) == s.sent + Stream(c, s.mem, s.bufs, s.down)
  {
    var r := s.down[0];
    Tail(s.down);
    assert Placed(c, s, [], r);
    SentBytes(c, s, n);
    forall q | q in s.waiting || q in s.down[1..] ensures At(c, t.mem, t.bufs, q) == At(c, s.mem, s.bufs, q) {}
    StreamSame(c, s.mem, s.bufs, t.mem, t.bufs, s.waiting);
    StreamSame(c, s.mem, s.bufs, t.mem, t.bufs, s.down[1..]);
    var a, b, e := At(c, s.mem, s.bufs, r), At(c, t.mem, t.bufs, r), Stream(c, s.mem, s.bufs, s.down[1..]);
    if n == Size(s.bufs[r]) {
      Assoc(s.sent, a, e);
    } else {
      Assoc(First(a, n, false), b, e);
      Assoc(s.sent, First(a, n, false), b + e);
    }
  }

  lemma SentInv(c: Config, s: State, n: nat)
    requires Inv(c, s, []) && s.down != [] && s.down[0] in s.bufs && n <= Size(s.bufs[s.down[0]])
    ensures Inv(c, Sent(c, s, n), []) && Later(c, Sent(c, s, n)) == Later(c, s)
    ensures Stream(c, s.mem, Sent(c, s, n).bufs, s.waiting) == Stream(c, s.mem, s.bufs, s.waiting)
  {
    var t := Sent(c, s, n);
    Tail(s.down);
    assert s.down[0] !in s.waiting by { assert Placed(c, s, [], s.down[0]); }
    forall q | q in t.bufs ensures Placed(c, t, [], q) { SentPlaced(c, s, n, q); }
    forall p, q | p in t.bufs && q in t.bufs ensures Apart(t, p, q) { assert Apart(s, p, q); }
    SentStreams(c, s, t, n);
    SideKept(c, s, t, s.down[0]);
  }

  // up to k bytes are sent, in order
  ghost function Drained(c: Config, s: State, k: nat): State
    decreases |s.down|, k
  {
    if s.down != [] && s.down[0] in s.bufs && Size(s.bufs[s.down[0]]) >= 0 && (k > 0 || Size(s.bufs[s.down[0]]) == 0)
    then (var size := Size(s.bufs[s.down[0]]); var m := if k < size then k else size; Drained(c, Sent(c, s, m), k - m))
    else s
  }

  // the first buffer of ctx->busy is sent: back to ctx->free with it
  function Recycled(s: State): State
    requires s.busy != [] && s.busy[0] in s.bufs
  {
    var r := s.busy[0];
    s.(bufs := s.bufs[r := s.bufs[r].(pos := s.bufs[r].start, last := s.bufs[r].start)], busy := s.busy[1..],
        spare := [r] + s.spare)
  }

  lemma RecycledPlaced(c: Config, s: State, q: Ref)
    requires Inv(c, s, []) && s.busy != [] && s.busy[0] in s.bufs && Size(s.bufs[s.busy[0]]) == 0
    requires s.bufs[s.busy[0]].tag == c.tag && q in s.bufs
    ensures Placed(c, Recycled(s), [], q)
  {
    var r, t := s.busy[0], Recycled(s);
    Tail(s.busy);
    assert Placed(c, s, [], r) && Placed(c, s, [], q);
    var b := s.bufs[r];
    assert b.part.inFile ==> b.part.last - b.part.pos == |s.mem[b.block][b.pos..b.last]| == 0;
    assert BufOk(c, t.mem, t.bufs[r]);
  }

  lemma RecycledInv(c: Config, s: State)
    requires Inv(c, s, []) && s.busy != [] && s.busy[0] in s.bufs && Size(s.bufs[s.busy[0]]) == 0
    requires s.bufs[s.busy[0]].tag == c.tag
    ensures Inv(c, Recycled(s), []) && Later(c, Recycled(s)) == Later(c, s)
    ensures Stream(c, s.mem, Recycled(s).bufs, s.waiting) == Stream(c, s.mem, s.bufs, s.waiting)
  {
    var r, t := s.busy[0], Recycled(s);
    Tail(s.busy);
    assert Placed(c, s, [], r);
    ConsNoDup(s.spare, r);
    forall q | q in t.bufs ensures Placed(c, t, [], q) { RecycledPlaced(c, s, q); }
    forall p, q | p in t.bufs && q in t.bufs ensures Apart(t, p, q) { assert Apart(s, p, q); }
    StreamSame(c, s.mem, s.bufs, t.mem, t.bufs, s.waiting);
    StreamSame(c, s.mem, s.bufs, t.mem, t.bufs, s.down);
    SideKept(c, s, t, r);
  }

  // ngx_chain_update_chains: the buffers at the head of ctx->busy that are sent leave it
  function Updated(c: Config, s: State): State
    decreases |s.busy|
  {
    if s.busy != [] && s.busy[0] in s.bufs && Size(s.bufs[s.busy[0]]) == 0
    then (if s.bufs[s.busy[0]].tag != c.tag then Updated(c, s.(busy := s.busy[1..])) else Updated(c, Recycled(s)))
    else s
  }

  // the first buffer of ctx->busy is sent, and is not the chain's own
  lemma ForgottenInv(c: Config, s: State)
    requires Inv(c, s, []) && s.busy != [] && s.busy[0] in s.bufs && s.bufs[s.busy[0]].tag != c.tag
    ensures Inv(c, s.(busy := s.busy[1..]), []) && Later(c, s.(busy := s.busy[1..])) == Later(c, s)
  {
    var r, t := s.busy[0], s.(busy := s.busy[1..]);
    Tail(s.busy);
    forall q | q in t.bufs ensures Placed(c, t, [], q) { assert Placed(c, s, [], q); }
    forall p, q | p in t.bufs && q in t.bufs ensures Apart(t, p, q) { assert Apart(s, p, q); }
    NeatKept(c, s, t);
  }

  // The caller brings buffers that the chain does not hold.
  ghost predicate Offered(s: State, input: seq<Ref>) {
    && NoDup(input)
    && forall r {:trigger r in input} :: r in input ==>
        r in s.bufs && r !in s.ours && r !in s.waiting && r !in s.busy && r !in s.down
  }

  // Where marks are watched, what the caller brings in goes well with what was brought in before.
  ghost predicate Marshalled(c: Config, s: State, input: seq<Ref>) { c.watch ==> Tidy(c, s.bufs, input, Later(c, s)) }

  // ngx_output_chain_add_copy
  function Added(s: State, input: seq<Ref>): State { s.(waiting := s.waiting + input) }

  lemma AddedInv(c: Config, s: State, input: seq<Ref>)
    requires Inv(c, s, []) && Offered(s, input) && Marshalled(c, s, input)
    ensures Inv(c, Added(s, input), []) && Later(c, Added(s, input)) == After(c, s.bufs, input, Later(c, s))
    ensures Stream(c, s.mem, s.bufs, s.waiting + input)
        == Stream(c, s.mem, s.bufs, s.waiting) + Stream(c, s.mem, s.bufs, input)
  {
    var t := Added(s, input);
    JoinNoDup(s.waiting, input);
    forall q | q in t.bufs ensures Placed(c, t, [], q) { assert Placed(c, s, [], q); }
    forall p, q | p in t.bufs && q in t.bufs ensures Apart(t, p, q) { assert Apart(s, p, q); }
    StreamConcat(c, s.mem, s.bufs, s.waiting, input);
    TidyConcat(c, s.bufs, s.waiting, input, s.acc);
  }

  // the short path: the buffers go to the filter as they are
  lemma DirectInv(c: Config, s: State, input: seq<Ref>)
    requires Inv(c, s, []) && Offered(s, input)
    requires forall r {:trigger r in input} :: r in input ==> r in s.bufs && Suits(c, s.bufs[r])
    ensures Inv(c, s, input)
  {
    forall q | q in s.bufs ensures Placed(c, s, input, q) { assert Placed(c, s, [], q); }
  }

  ghost function Owned(s: State, out: seq<Ref>): set<Ref> { set r | r in out && r in s.ours }

  // a call that fails does not put its chain behind ctx->busy
  lemma LeftInv(c: Config, s: State, busy: seq<Ref>, out: seq<Ref>)
    requires Inv(c, s.(busy := busy + out), [])
    ensures Inv(c, s.(busy := busy, lost := s.lost + Owned(s, out)), [])
  {
    var t, u := s.(busy := busy + out), s.(busy := busy, lost := s.lost + Owned(s, out));
    assert forall i :: 0 <= i < |busy| ==> (busy + out)[i] == busy[i];
    forall i, j | 0 <= i < |busy| && 0 <= j < |out| ensures busy[i] != out[j] {
      assert (busy + out)[i] == busy[i] && (busy + out)[|busy| + j] == out[j];
    }
    forall q | q in u.bufs ensures Placed(c, u, [], q) { assert Placed(c, t, [], q); }
    forall p, q | p in u.bufs && q in u.bufs ensures Apart(u, p, q) { assert Apart(t, p, q); }
    NeatKept(c, t, u);
  }

  // a call that fails to read a file drops what it has collected
  lemma DroppedInv(c: Config, s: State, out: seq<Ref>)
    requires Inv(c, s, out)
    ensures Inv(c, s.(lost := s.lost + Owned(s, out)), [])
  {
    var t := s.(lost := s.lost + Owned(s, out));
    forall q | q in t.bufs ensures Placed(c, t, [], q) { assert Placed(c, s, out, q); }
    forall p, q | p in t.bufs && q in t.bufs ensures Apart(t, p, q) { assert Apart(s, p, q); }
    NeatKept(c, s, t);
  }

  // --- what holds a chain up, and what it does to flags ---------------------------------------------

  // The buffer at the head of ctx->in needs a copy, and there is no buffer left to copy it to.
  ghost predicate Stuck(c: Config, s: State) {
    && s.waiting != [] && s.buf == NIL && s.spare == [] && s.made == c.num
    && Live(s)
  }

  // A chain is held up only while the filter has bytes to send: the next write event can free a buffer.
  lemma NoStall(c: Config, s: State)
    requires Inv(c, s, []) && Stuck(c, s) && c.num > 0 && s.lost == {}
    ensures Stream(c, s.mem, s.bufs, s.down) != []
    ensures forall r :: r in s.ours ==> r in s.busy
  {
    forall r | r in s.ours ensures r in s.busy { assert Placed(c, s, [], r); }
    assert s.ours != {};
    var o :| o in s.ours;
    var r := s.busy[0];
    assert r in s.bufs && Placed(c, s, [], r);
    HeldBytes(c, s.mem, s.bufs, s.down, r);
  }

  lemma {:induction false} HeldBytes(c: Config, mem: Blocks, bufs: Bufs, q: seq<Ref>, r: Ref)
    requires r in q && At(c, mem, bufs, r) != []
    ensures Stream(c, mem, bufs, q) != []
  {
    if q[0] != r { HeldBytes(c, mem, bufs, q[1..], r); }
  }

  // its side effect: without sendfile a buffer in memory is no longer in a file
  function Unfiled(c: Config, b: Buf): Buf {
    if !Special(b) && !c.sendfile && InMemory(b) then b.(part := b.part.(inFile := false)) else b
  }

  lemma UnfiledInv(c: Config, s: State, out: seq<Ref>, r: Ref)
    requires Inv(c, s, out) && r in s.bufs && r !in s.ours && r !in s.busy && r !in s.down
    ensures var t := Put(s, r, Unfiled(c, s.bufs[r]));
            && Inv(c, t, out) && At(c, t.mem, t.bufs, r) == At(c, s.mem, s.bufs, r)
            && Size(t.bufs[r]) == Size(s.bufs[r]) && Later(c, t) == Later(c, s)
            && forall q {:trigger At(c, t.mem, t.bufs, q)} :: At(c, t.mem, t.bufs, q) == At(c, s.mem, s.bufs, q)
  {
    assert Placed(c, s, out, r);
    PutInv(c, s, out, r, Unfiled(c, s.bufs[r]));
  }

  function Supplied(s: State, b: Buf, data: seq<Byte>): State {
    s.(bufs := s.bufs[s.top := b.(block := s.top)], mem := s.mem[s.top := data], top := s.top + 1)
  }

  lemma SuppliedPlaced(c: Config, s: State, b: Buf, data: seq<Byte>, q: Ref)
    requires Inv(c, s, []) && q in s.bufs
    ensures var t := Supplied(s, b, data);
        q < s.top && Placed(c, t, [], q) && At(c, t.mem, t.bufs, q) == At(c, s.mem, s.bufs, q)
  {
    assert Placed(c, s, [], q);
  }

  lemma SuppliedApart(c: Config, s: State, b: Buf, data: seq<Byte>)
    requires Inv(c, s, []) && b.tag != c.tag && s.top > 0 && BufOk(c, s.mem[s.top := data], b.(block := s.top))
    ensures var t := Supplied(s, b, data);
            && s.top !in s.bufs && s.top in t.bufs && Placed(c, t, [], s.top)
            && forall p, q {:trigger Apart(t, p, q)} :: p in t.bufs && q in t.bufs ==> Apart(t, p, q)
  {
    var t := Supplied(s, b, data);
    forall q | q in s.bufs ensures q < s.top { assert Placed(c, s, [], q); }
    forall p, q | p in t.bufs && q in t.bufs ensures Apart(t, p, q) {
      if p != s.top { assert Placed(c, s, [], p); }
      if p != s.top && q != s.top { assert Apart(s, p, q); }
    }
  }

  // The chain does not depend on the buffers that its callers make.
  lemma SuppliedInv(c: Config, s: State, b: Buf, data: seq<Byte>)
    requires Inv(c, s, []) && b.tag != c.tag && s.top > 0 && BufOk(c, s.mem[s.top := data], b.(block := s.top))
    ensures var t := Supplied(s, b, data);
            && Inv(c, t, []) && Offered(t, [s.top]) && s.top !in s.bufs
            && Stream(c, t.mem, t.bufs, s.waiting) == Stream(c, s.mem, s.bufs, s.waiting)
            && Stream(c, t.mem, t.bufs, [s.top]) == At(c, t.mem, t.bufs, s.top)
  {
    var t := Supplied(s, b, data);
    forall q | q in s.bufs
      ensures q < s.top && Placed(c, t, [], q) && At(c, t.mem, t.bufs, q) == At(c, s.mem, s.bufs, q)
    {
      SuppliedPlaced(c, s, b, data, q);
    }
    SuppliedApart(c, s, b, data);
    StreamSame(c, s.mem, s.bufs, t.mem, t.bufs, s.down);
    StreamSame(c, s.mem, s.bufs, t.mem, t.bufs, s.waiting);
    assert [s.top][1..] == [];
    NeatKept(c, s, t);
  }

  // --- a chain goes to the filter ------------------------------------------------------------------

  ghost predicate Live(s: State) { s.busy != [] ==> s.busy[0] in s.bufs && Size(s.bufs[s.busy[0]]) > 0 }

  // what sending and recycling leave alone
  ghost predicate SameWork(c: Config, s: State, t: State) {
    && t.waiting == s.waiting && t.handed == s.handed && t.lost == s.lost && Later(c, t) == Later(c, s)
    && Stream(c, t.mem, t.bufs, t.waiting) == Stream(c, s.mem, s.bufs, s.waiting)
  }

  // one buffer at a time
  lemma DrainedStep(c: Config, s: State, k: nat, m: nat)
    requires s.down != [] && s.down[0] in s.bufs && Size(s.bufs[s.down[0]]) >= 0
    requires (k > 0 || Size(s.bufs[s.down[0]]) == 0)
    requires m == if k < Size(s.bufs[s.down[0]]) then k else Size(s.bufs[s.down[0]])
    ensures Drained(c, s, k) == Drained(c, Sent(c, s, m), k - m)
    ensures var t := Sent(c, s, m);
            && t.busy == s.busy && t.waiting == s.waiting && t.handed == s.handed && t.lost == s.lost
            && (|t.down| < |s.down| || (|t.down| == |s.down| && k - m < k))
  {}

  lemma SentWork(c: Config, s: State, k: nat, m: nat)
    requires Inv(c, s, []) && s.down != [] && s.down[0] in s.bufs && (k > 0 || Size(s.bufs[s.down[0]]) == 0)
    requires m == if k < Size(s.bufs[s.down[0]]) then k else Size(s.bufs[s.down[0]])
    ensures var t := Sent(c, s, m);
            && Inv(c, t, []) && SameWork(c, s, t) && t.busy == s.busy && Drained(c, s, k) == Drained(c, t, k - m)
            && (|t.down| < |s.down| || (|t.down| == |s.down| && k - m < k))
  {
    SentInv(c, s, m);
    DrainedStep(c, s, k, m);
  }

  lemma {:induction false} DrainedInv(c: Config, s: State, k: nat)
    requires Inv(c, s, [])
    ensures Inv(c, Drained(c, s, k), []) && SameWork(c, s, Drained(c, s, k)) && Drained(c, s, k).busy == s.busy
    decreases |s.down|, k
  {
    if s.down != [] && s.down[0] in s.bufs && Size(s.bufs[s.down[0]]) >= 0 && (k > 0 || Size(s.bufs[s.down[0]]) == 0) {
      var size := Size(s.bufs[s.down[0]]);
      var m := if k < size then k else size;
      SentWork(c, s, k, m);
      DrainedInv(c, Sent(c, s, m), k - m);
    }
  }

  lemma {:induction false} UpdatedInv(c: Config, s: State)
    requires Inv(c, s, [])
    ensures Inv(c, Updated(c, s), []) && SameWork(c, s, Updated(c, s)) && Live(Updated(c, s))
    decreases |s.busy|
  {
    if s.busy != [] {
      assert s.busy[0] in s.bufs && Placed(c, s, [], s.busy[0]);
      if Size(s.bufs[s.busy[0]]) == 0 {
        if s.bufs[s.busy[0]].tag != c.tag {
          ForgottenInv(c, s);
          UpdatedInv(c, s.(busy := s.busy[1..]));
        } else {
          RecycledInv(c, s);
          UpdatedInv(c, Recycled(s));
        }
      }
    }
  }

  // the filter took the chain, sent k bytes, and what is sent left ctx->busy
  ghost function Flushed(c: Config, s: State, out: seq<Ref>, k: nat): State { Updated(c, Drained(c, Given(c, s, out),
                         k)) }

  // the filter took the chain and failed
  ghost function Failed(c: Config, s: State, out: seq<Ref>, k: nat): State {
    var t := Drained(c, Given(c, s, out), k);
    t.(busy := s.busy, lost := t.lost + Owned(t, out))
  }

  lemma FilterInv(c: Config, s: State, out: seq<Ref>, k: nat)
    requires Inv(c, s, out)
    ensures var t := Drained(c, Given(c, s, out), k);
      Inv(c, t, []) && t.busy == s.busy + out && t.waiting == s.waiting && t.lost == s.lost &&
          Later(c, t) == Later(c, s)
      && t.handed == s.handed + Stream(c, s.mem, s.bufs, out)
      && Stream(c, t.mem, t.bufs, t.waiting) == Stream(c, s.mem, s.bufs, s.waiting)
  {
    GivenInv(c, s, out);
    DrainedInv(c, Given(c, s, out), k);
  }

  // what was to go out is handed over, and what waits waits on
  ghost predicate Handed(c: Config, s: State, out: seq<Ref>, t: State) {
    && t.handed + Stream(c, t.mem, t.bufs, t.waiting)
        == s.handed + (Stream(c, s.mem, s.bufs, out) + Stream(c, s.mem, s.bufs, s.waiting))
    && |Stream(c, t.mem, t.bufs, t.waiting)| == |Stream(c, s.mem, s.bufs, s.waiting)| && t.waiting == s.waiting
    && Later(c, t) == Later(c, s)
  }

  lemma FlushedInv(c: Config, s: State, out: seq<Ref>, k: nat)
    requires Inv(c, s, out)
    ensures var t := Flushed(c, s, out, k); Inv(c, t, []) && Handed(c, s, out, t) && t.lost == s.lost && Live(t)
  {
    FilterInv(c, s, out, k);
    UpdatedInv(c, Drained(c, Given(c, s, out), k));
    Assoc(s.handed, Stream(c, s.mem, s.bufs, out), Stream(c, s.mem, s.bufs, s.waiting));
  }

  lemma FailedInv(c: Config, s: State, out: seq<Ref>, k: nat)
    requires Inv(c, s, out)
    ensures var t := Failed(c, s, out, k); Inv(c, t, []) && Handed(c, s, out, t)
  {
    FilterInv(c, s, out, k);
    LeftInv(c, Drained(c, Given(c, s, out), k), s.busy, out);
    Assoc(s.handed, Stream(c, s.mem, s.bufs, out), Stream(c, s.mem, s.bufs, s.waiting));
  }

  // --- one turn of the inner loop --------------------------------------------------------------------

  ghost function Weight(c: Config, s: State): nat { |Stream(c, s.mem, s.bufs, s.waiting)| + |s.waiting| }

  // Items go from ctx->in to the chain that is collected, and nothing else happens to them.
  ghost predicate Progress(c: Config, s: State, out: seq<Ref>, t: State, out': seq<Ref>) {
    && Inv(c, t, out') && t.handed == s.handed && t.busy == s.busy && t.lost == s.lost
    && (c.watch ==> NoWorse(c, Later(c, t), Later(c, s)))
    && Stream(c, t.mem, t.bufs, out') + Stream(c, t.mem, t.bufs, t.waiting)
          == Stream(c, s.mem, s.bufs, out) + Stream(c, s.mem, s.bufs, s.waiting)
    && (Live(s) ==> Live(t)) && Weight(c, t) <= Weight(c, s)
  }

  // a step of the loop that leaves the buffers of out, busy and waiting what they stand for
  ghost predicate Still(c: Config, s: State, out: seq<Ref>, t: State) {
    && Progress(c, s, out, t, out) && t.waiting == s.waiting && Weight(c, t) == Weight(c, s)
  }

  lemma StillSame(c: Config, s: State, out: seq<Ref>, t: State)
    requires Inv(c, s, out) && Inv(c, t, out) && t.handed == s.handed && t.busy == s.busy && t.lost == s.lost
    requires (c.watch ==> NoWorse(c, Later(c, t), Later(c, s))) && t.waiting == s.waiting
    requires forall q {:trigger q in s.bufs} :: q in s.bufs ==>
        q in t.bufs && At(c, t.mem, t.bufs, q) == At(c, s.mem, s.bufs, q) && Size(t.bufs[q]) == Size(s.bufs[q])
    ensures Still(c, s, out, t)
  {
    StreamSame(c, s.mem, s.bufs, t.mem, t.bufs, out);
    StreamSame(c, s.mem, s.bufs, t.mem, t.bufs, s.waiting);
  }

  lemma TakenStill(c: Config, s: State, out: seq<Ref>)
    requires Inv(c, s, out) && s.spare != [] && s.buf == NIL
    ensures Still(c, s, out, Taken(s)) && Taken(s).buf != NIL
  {
    TakenInv(c, s, out);
    StillSame(c, s, out, Taken(s));
  }

  lemma GotStill(c: Config, s: State, out: seq<Ref>, data: seq<Byte>, recycled: bool)
    requires Inv(c, s, out) && s.buf == NIL && s.top > 0 && |data| > 0 && s.made < c.num
    requires s.waiting != [] && Copies(c, s.bufs[s.waiting[0]]) && |data| == NewSize(c, s.bufs[s.waiting[0]])
    ensures Still(c, s, out, Got(c, s, data, recycled)) && s.top !in s.bufs
  {
    GotInv(c, s, Got(c, s, data, recycled), out, data, recycled);
    StillSame(c, s, out, Got(c, s, data, recycled));
  }

  // lines 97-119: a buffer without bytes is passed over
  lemma SkippedOk(c: Config, s: State, out: seq<Ref>)
    requires Inv(c, s, out) && s.waiting != [] && Size(s.bufs[s.waiting[0]]) == 0 && !Special(s.bufs[s.waiting[0]])
    ensures var t := s.(waiting := s.waiting[1..]); Progress(c, s, out, t, out) && Weight(c, t) < Weight(c, s)
  {
    SkipInv(c, s, out);
  }

  // lines 121-133: a buffer that needs no copy goes out itself
  function Passed(c: Config, s: State): State
    requires s.waiting != [] && s.waiting[0] in s.bufs
  {
    var r := s.waiting[0];
    var t := Put(s, r, Unfiled(c, s.bufs[r]));
    if AsIs(c, s.bufs[r]) then t.(waiting := t.waiting[1..]) else t
  }

  lemma UnfiledStill(c: Config, s: State, out: seq<Ref>)
    requires Inv(c, s, out) && s.waiting != []
    ensures s.waiting[0] in s.bufs && Still(c, s, out, Put(s, s.waiting[0], Unfiled(c, s.bufs[s.waiting[0]])))
  {
    var r := s.waiting[0];
    assert r in s.bufs && Placed(c, s, out, r);
    UnfiledInv(c, s, out, r);
    var t := Put(s, r, Unfiled(c, s.bufs[r]));
    forall q | q in s.bufs
      ensures At(c, t.mem, t.bufs, q) == At(c, s.mem, s.bufs, q) && Size(t.bufs[q]) == Size(s.bufs[q])
    {
    }
    StillSame(c, s, out, t);
  }

  lemma PassedOk(c: Config, s: State, out: seq<Ref>)
    requires Inv(c, s, out) && s.waiting != [] && s.waiting[0] in s.bufs && AsIs(c, s.bufs[s.waiting[0]])
    ensures Progress(c, s, out, Passed(c, s), out + [s.waiting[0]]) && Weight(c, Passed(c, s)) < Weight(c, s)
  {
    UnfiledStill(c, s, out);
    var u := Put(s, s.waiting[0], Unfiled(c, s.bufs[s.waiting[0]]));
    PassInv(c, u, out);
    PassBytes(c, u, out);
  }

  // lines 165-194: a copy goes out
  lemma MovedOk(c: Config, s: State, out: seq<Ref>)
    requires Ready(c, s, out)
    ensures Copying(c, s) && Progress(c, s, out, Moved(c, s), out + [s.buf]) && Weight(c, Moved(c, s)) < Weight(c, s)
  {
    CopiedHead(c, s, out);
    CopiedBytes(c, s, out);
    var t := Copied(c, s);
    assert s.busy != [] ==> Placed(c, s, out, s.busy[0]) && Kept(c, s, t, s.busy[0]);
    ShiftedStreams(c, s, t, out);
    ShiftedInv(c, s, t, out);
  }

  // all that was handed over, is dropped, or waits
  ghost function Balance(c: Config, s: State, dropped: seq<Item>): seq<Item> {
    s.handed + (dropped + Stream(c, s.mem, s.bufs, s.waiting))
  }

  lemma CollectedBalance(c: Config, s: State, t: State, out: seq<Ref>)
    requires Inv(c, s, []) && Progress(c, s, [], t, out)
    ensures Balance(c, t, Stream(c, t.mem, t.bufs, out)) == Balance(c, s, [])
    ensures var u := t.(lost := t.lost + Owned(t, out));
        Inv(c, u, []) && Balance(c, u, Stream(c, t.mem, t.bufs, out)) == Balance(c, s, [])
    ensures out == [] ==> Balance(c, t, []) == Balance(c, s, [])
  {
    DroppedInv(c, t, out);
    assert Stream(c, s.mem, s.bufs, []) + Stream(c, s.mem, s.bufs, s.waiting) == Stream(c, s.mem, s.bufs, s.waiting);
  }

  lemma HandedBalance(c: Config, s: State, t: State, out: seq<Ref>, u: State)
    requires Inv(c, s, []) && Progress(c, s, [], t, out) && Handed(c, t, out, u)
    ensures Balance(c, u, []) == Balance(c, s, []) && Weight(c, u) == Weight(c, t)
  {
    CollectedBalance(c, s, t, out);
    assert [] + Stream(c, u.mem, u.bufs, u.waiting) == Stream(c, u.mem, u.bufs, u.waiting);
  }
}
